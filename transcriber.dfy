/**
 * The transcription loop of `AudioTranscriber`: one chunk at a time through
 * a temporary WAV file and the speech model, failures skipped, the
 * non-empty texts joined with single spaces.
 *
 * The audio library and the speech model are not modelled; what they do
 * with each chunk is part of the chunk value (an oracle). A run of the real
 * program corresponds to some choice of chunks when every exception raised
 * is an `Exception` and neither removing a file, writing the transcript nor
 * printing raises.
 */
module Transcriber {
  import opened Outcomes
  import opened Text
  import opened FileSystem

  /** What `chunk.export(name, format="wav")` does: writes the file, or
      raises, possibly having left a partial file behind. */
  datatype ExportOutcome = Exported | ExportFailed(leftPartialFile: bool, error: Error)

  /** What `model.transcribe(name)` does: returns a text, or raises. */
  datatype Reply = Transcribed(text: string) | Raised(error: Error)

  /** One chunk of decoded audio, with how export and the model behave on it. */
  datatype Chunk = Chunk(audio: seq<int>, wavExport: ExportOutcome, reply: Reply)

  const TempPrefix: string := "temp_chunk_"
  const TempSuffix: string := ".wav"

  /** The temporary file for the chunk at `index`. */
  function TempName(index: nat): (name: string)
    ensures |name| > |TempPrefix| + |TempSuffix|
    ensures name[..|TempPrefix|] == TempPrefix && name[|name| - |TempSuffix|..] == TempSuffix
    ensures name[|TempPrefix|..|name| - |TempSuffix|] == NatToString(index)
  {
    var digits := NatToString(index);
    var name := TempPrefix + digits + TempSuffix;
    assert name[|TempPrefix|..|name| - |TempSuffix|] == digits;
    name
  }

  /** Distinct chunks never share a temporary file. */
  lemma TempNameInjective(a: nat, b: nat)
    requires TempName(a) == TempName(b)
    ensures a == b
  {
    var na, nb := TempName(a), TempName(b);
    assert na[|TempPrefix|..|na| - |TempSuffix|] == NatToString(a);
    assert nb[|TempPrefix|..|nb| - |TempSuffix|] == NatToString(b);
    NatToStringInjective(a, b);
  }

  /** The temporary names of the chunks before `count`. */
  function TempNames(count: nat): (names: set<string>)
    ensures forall i :: 0 <= i < count ==> TempName(i) in names
  {
    set i: nat | i < count :: TempName(i)
  }

  // ---------------------------------------------------------------------
  // transcribe_chunk

  /** What `transcribe_chunk` returns or raises for one chunk. */
  function ChunkResult(c: Chunk): (r: Result<string>)
    ensures r.Ok? <==> c.wavExport.Exported? && c.reply.Transcribed?
    ensures r.Ok? ==> IsStripOf(r.value, c.reply.text)
    ensures r.Err? && c.wavExport.ExportFailed? ==> r.error == c.wavExport.error
    ensures r.Err? && c.wavExport.Exported? ==> r.error == c.reply.error
  {
    match c.wavExport
    case ExportFailed(_, e) => Err(e)
    case Exported =>
      match c.reply
      case Transcribed(text) => Ok(Strip(text))
      case Raised(e) => Err(e)
  }

  /** The directory after `transcribe_chunk` on chunk `index`: once the
      temporary file has been exported it is gone, whichever way the call
      ends; an export that fails can leave its partial file; nothing else
      changes. */
  function FilesAfterChunk(files: map<string, Content>, c: Chunk, index: nat): (after: map<string, Content>)
    ensures after - {TempName(index)} == files - {TempName(index)}
    ensures c.wavExport.Exported? ==> TempName(index) !in after
    ensures c.wavExport.ExportFailed? && c.wavExport.leftPartialFile ==>
      TempName(index) in after && after[TempName(index)] == Wav(c.audio)
    ensures c.wavExport.ExportFailed? && !c.wavExport.leftPartialFile ==> after == files
  {
    match c.wavExport
    case Exported => files - {TempName(index)}
    case ExportFailed(left, _) => if left then files[TempName(index) := Wav(c.audio)] else files
  }

  /** `chunk.export(temp_file, format="wav")`. */
  method Export(dir: Directory, c: Chunk, name: string) returns (r: Result<()>)
    modifies dir
    ensures r.Ok? <==> c.wavExport.Exported?
    ensures r.Err? ==> r.error == c.wavExport.error
    ensures c.wavExport.Exported? ==> dir.files == old(dir.files)[name := Wav(c.audio)]
    ensures c.wavExport.ExportFailed? && c.wavExport.leftPartialFile ==> dir.files == old(dir.files)[name := Wav(c.audio)]
    ensures c.wavExport.ExportFailed? && !c.wavExport.leftPartialFile ==> dir.files == old(dir.files)
  {
    match c.wavExport
    case Exported =>
      dir.Write(name, Wav(c.audio));
      r := Ok(());
    case ExportFailed(left, e) =>
      if left {
        dir.Write(name, Wav(c.audio));
      }
      r := Err(e);
  }

  /** `transcribe_chunk(chunk, index)`: export to the temporary file, ask
      the model, strip the text, and remove the temporary file on the
      normal path and on the error path before re-raising. */
  method TranscribeChunk(dir: Directory, c: Chunk, index: nat) returns (r: Result<string>)
    modifies dir
    ensures r == ChunkResult(c)
    ensures dir.files == FilesAfterChunk(old(dir.files), c, index)
  {
    var temp := TempName(index);
    var exported := Export(dir, c, temp);
    if exported.Err? {
      // export is outside the try block: its error propagates as it is
      return Err(exported.error);
    }
    ghost var written := dir.files;
    assert written - {temp} == old(dir.files) - {temp};
    match c.reply
    case Transcribed(text) =>
      var stripped := Strip(text);
      dir.Remove(temp);
      r := Ok(stripped);
    case Raised(e) =>
      var present := dir.Exists(temp);
      if present {
        dir.Remove(temp);
      }
      r := Err(e);
  }

  // ---------------------------------------------------------------------
  // transcribe_large_audio

  /** What `transcribe_chunk` gives for each chunk, in chunk order. */
  function Results(chunks: seq<Chunk>): (rs: seq<Result<string>>)
    ensures |rs| == |chunks|
    ensures forall i :: 0 <= i < |chunks| ==> rs[i] == ChunkResult(chunks[i])
  {
    if chunks == [] then [] else [ChunkResult(chunks[0])] + Results(chunks[1..])
  }

  /** A chunk result that adds nothing: an error, or an empty text. */
  predicate Dropped(r: Result<string>) {
    r.Err? || r.value == ""
  }

  /** The texts the loop appends to `full_transcription`, in order. */
  function Kept(results: seq<Result<string>>): (parts: seq<string>)
    ensures forall k :: 0 <= k < |parts| ==> parts[k] != ""
    ensures |parts| <= |results|
  {
    if results == [] then []
    else
      var last := results[|results| - 1];
      var init := Kept(results[..|results| - 1]);
      if Dropped(last) then init else init + [last.value]
  }

  /** The transcript: the kept texts joined with one space. It is empty
      exactly when every chunk failed or gave an empty text. */
  function Transcript(results: seq<Result<string>>): (r: string)
    ensures r == "" <==> forall i :: 0 <= i < |results| ==> Dropped(results[i])
  {
    KeptEmptyIff(results);
    JoinEmptyIff(" ", Kept(results));
    Join(" ", Kept(results))
  }

  /** Keeping distributes over concatenation: order is preserved and each
      chunk's contribution depends on that chunk alone. */
  lemma {:induction false} KeptAppend(a: seq<Result<string>>, b: seq<Result<string>>)
    ensures Kept(a + b) == Kept(a) + Kept(b)
  {
    if b != [] {
      var b' := b[..|b| - 1];
      assert (a + b)[..|a + b| - 1] == a + b';
      KeptAppend(a, b');
    } else {
      assert a + b == a;
    }
  }

  /** A chunk contributes its text exactly when it succeeded with a
      non-empty text. */
  lemma KeptSingle(r: Result<string>)
    ensures Kept([r]) == if Dropped(r) then [] else [r.value]
  {
    assert [r][..0] == [];
  }

  /** A text is kept exactly when some chunk succeeded with that text and
      it is not empty. */
  lemma {:induction false} KeptMembers(results: seq<Result<string>>, t: string)
    ensures t in Kept(results) <==> exists i :: 0 <= i < |results| && !Dropped(results[i]) && results[i].value == t
  {
    if results != [] {
      var n := |results| - 1;
      var init := results[..n];
      KeptMembers(init, t);
      if exists i :: 0 <= i < |results| && !Dropped(results[i]) && results[i].value == t {
        var i :| 0 <= i < |results| && !Dropped(results[i]) && results[i].value == t;
        if i < n {
          assert init[i] == results[i];
        }
      }
      if exists i :: 0 <= i < |init| && !Dropped(init[i]) && init[i].value == t {
        var i :| 0 <= i < |init| && !Dropped(init[i]) && init[i].value == t;
        assert results[i] == init[i];
      }
    }
  }

  /** A failed or empty chunk leaves the transcript exactly as if it had
      not been there, so a chunk whose `transcribe_chunk` raised does not
      stop the later chunks from contributing. */
  lemma TranscriptSkipsDropped(a: seq<Result<string>>, r: Result<string>, b: seq<Result<string>>)
    requires Dropped(r)
    ensures Transcript(a + [r] + b) == Transcript(a + b)
  {
    KeptAppend(a + [r], b);
    KeptAppend(a, [r]);
    KeptSingle(r);
    KeptAppend(a, b);
  }

  /** The transcript of two runs of chunks is the two transcripts with one
      space between them, or just one of them when the other is empty: no
      separator is ever doubled or left dangling. */
  lemma TranscriptAppend(a: seq<Result<string>>, b: seq<Result<string>>)
    ensures Transcript(a) == "" ==> Transcript(a + b) == Transcript(b)
    ensures Transcript(b) == "" ==> Transcript(a + b) == Transcript(a)
    ensures Transcript(a) != "" && Transcript(b) != "" ==>
      Transcript(a + b) == Transcript(a) + " " + Transcript(b)
  {
    KeptAppend(a, b);
    JoinEmptyIff(" ", Kept(a));
    JoinEmptyIff(" ", Kept(b));
    if Kept(a) == [] {
      assert Kept(a + b) == Kept(b);
    } else if Kept(b) == [] {
      assert Kept(a + b) == Kept(a);
    } else {
      JoinAppend(" ", Kept(a), Kept(b));
    }
  }

  /** Nothing is kept exactly when every chunk failed or gave an empty
      text. */
  lemma {:induction false} KeptEmptyIff(results: seq<Result<string>>)
    ensures Kept(results) == [] <==> forall i :: 0 <= i < |results| ==> Dropped(results[i])
  {
    if results != [] {
      var init := results[..|results| - 1];
      KeptEmptyIff(init);
      assert forall i :: 0 <= i < |init| ==> init[i] == results[i];
    }
  }

  /** Every kept text came out of `strip()`, so a transcript has no
      whitespace at either end. */
  lemma TranscriptTrimmed(chunks: seq<Chunk>)
    ensures Trimmed(Transcript(Results(chunks)))
  {
    KeptTrimmed(Results(chunks));
    JoinTrimmed(" ", Kept(Results(chunks)));
  }

  lemma {:induction false} KeptTrimmed(results: seq<Result<string>>)
    requires forall i :: 0 <= i < |results| ==> results[i].Ok? ==> Trimmed(results[i].value)
    ensures forall k :: 0 <= k < |Kept(results)| ==> Trimmed(Kept(results)[k])
  {
    if results != [] {
      KeptTrimmed(results[..|results| - 1]);
    }
  }

  /** Two non-empty texts around a dropped chunk give the two texts
      separated by one space. */
  lemma TranscriptAroundDropped(a: string, r: Result<string>, b: string)
    requires a != "" && b != "" && Dropped(r)
    ensures Transcript([Ok(a), r, Ok(b)]) == a + " " + b
  {
    var ra, rb := [Ok(a)], [Ok(b)];
    assert [Ok(a), r, Ok(b)] == ra + [r] + rb;
    TranscriptSkipsDropped(ra, r, rb);
    KeptAppend(ra, rb);
    KeptSingle(Ok(a));
    KeptSingle(Ok(b));
    assert Kept(ra + rb) == [a] + [b];
    JoinCons(" ", a, [b]);
  }

  /** The worked example: "hello", an empty chunk and "world" give
      "hello world"; a failing chunk in the middle changes nothing. */
  lemma HelloWorld(e: Error)
    ensures Transcript([Ok("hello"), Ok(""), Ok("world")]) == "hello world"
    ensures Transcript([Ok("hello"), Err(e), Ok("world")]) == "hello world"
  {
    assert "hello" + " " + "world" == "hello world";
    assert "hello" != "" && "world" != "";
    TranscriptAroundDropped("hello", Ok(""), "world");
    TranscriptAroundDropped("hello", Err(e), "world");
  }

  lemma RemoveBoth(m: map<string, Content>, a: set<string>, b: set<string>)
    ensures m - (a + b) == m - a - b
  {
  }

  /** If the directory differed from `files` only in the first `n`
      temporary names, and one step changed only the name of chunk `n`, it
      differs only in the first `n + 1`. */
  lemma OnlyTempFileChanges(files: map<string, Content>, before: map<string, Content>,
                            after: map<string, Content>, n: nat)
    requires before - TempNames(n) == files - TempNames(n)
    requires after - {TempName(n)} == before - {TempName(n)}
    ensures after - TempNames(n + 1) == files - TempNames(n + 1)
  {
    var t, names := TempName(n), TempNames(n);
    assert TempNames(n + 1) == {t} + names;
    calc {
      after - TempNames(n + 1);
      { RemoveBoth(after, {t}, names); }
      after - {t} - names;
      before - {t} - names;
      { RemoveBoth(before, {t}, names); RemoveBoth(before, names, {t}); assert {t} + names == names + {t}; }
      before - names - {t};
      files - names - {t};
      { RemoveBoth(files, {t}, names); RemoveBoth(files, names, {t}); assert {t} + names == names + {t}; }
      files - TempNames(n + 1);
    }
  }

  /** The directory after the loop has run `transcribe_chunk` on every
      chunk, the chunk at position `i` using index `i`. The loop touches
      only temporary files. */
  function FilesAfter(files: map<string, Content>, chunks: seq<Chunk>): (after: map<string, Content>)
    ensures after - TempNames(|chunks|) == files - TempNames(|chunks|)
  {
    if chunks == [] then files
    else
      var n := |chunks| - 1;
      var before := FilesAfter(files, chunks[..n]);
      var after := FilesAfterChunk(before, chunks[n], n);
      OnlyTempFileChanges(files, before, after, n);
      after
  }

  /** After the loop, the temporary file of chunk `i` exists exactly when
      its export failed and either left a partial file or did not replace
      a file that was already there: a chunk whose export succeeded never
      leaves its temporary file behind, even when the model failed. */
  lemma {:induction false} TempFileAfterLoop(files: map<string, Content>, chunks: seq<Chunk>, i: nat)
    requires i < |chunks|
    ensures TempName(i) in FilesAfter(files, chunks) <==>
      chunks[i].wavExport.ExportFailed? && (chunks[i].wavExport.leftPartialFile || TempName(i) in files)
  {
    var n := |chunks| - 1;
    var init := chunks[..n];
    var before := FilesAfter(files, init);
    var after := FilesAfter(files, chunks);
    var t := TempName(n);
    assert after - {t} == before - {t};
    if i < n {
      TempFileAfterLoop(files, init, i);
      assert init[i] == chunks[i];
      TempNameDistinct(i, n);
      assert TempName(i) in after <==> TempName(i) in after - {t};
    } else {
      TempNameNotEarlier(n);
      assert t in before <==> t in before - TempNames(n);
      assert t in files <==> t in files - TempNames(n);
    }
  }

  lemma TempNameDistinct(i: nat, j: nat)
    requires i != j
    ensures TempName(i) != TempName(j)
  {
    if TempName(i) == TempName(j) {
      TempNameInjective(i, j);
    }
  }

  /** The chunk at `n` does not reuse an earlier chunk's temporary name. */
  lemma TempNameNotEarlier(n: nat)
    ensures TempName(n) !in TempNames(n)
  {
    forall j: nat | j < n
      ensures TempName(j) != TempName(n)
    {
      TempNameDistinct(j, n);
    }
  }

  /** When every export succeeded, no temporary file is left. */
  lemma NoTempFileLeft(files: map<string, Content>, chunks: seq<Chunk>)
    requires forall i :: 0 <= i < |chunks| ==> chunks[i].wavExport.Exported?
    ensures forall i :: 0 <= i < |chunks| ==> TempName(i) !in FilesAfter(files, chunks)
  {
    forall i | 0 <= i < |chunks|
      ensures TempName(i) !in FilesAfter(files, chunks)
    {
      TempFileAfterLoop(files, chunks, i);
    }
  }

  /** `if output_file:` writes the transcript, overwriting, and only then;
      `None` and the empty string are both false. */
  function Persist(files: map<string, Content>, outputFile: Option<string>, text: string): (after: map<string, Content>)
    ensures outputFile.Some? && outputFile.value != "" ==>
      outputFile.value in after && after[outputFile.value] == Utf8(text) &&
      after - {outputFile.value} == files - {outputFile.value}
    ensures outputFile.None? || outputFile.value == "" ==> after == files
  {
    if outputFile.Some? && outputFile.value != "" then files[outputFile.value := Utf8(text)] else files
  }

  /** One more turn of the loop applies the chunk's directory changes to
      the directory left by the earlier chunks. */
  lemma FilesStep(files: map<string, Content>, chunks: seq<Chunk>, i: nat)
    requires i < |chunks|
    ensures FilesAfter(files, chunks[..i + 1]) == FilesAfterChunk(FilesAfter(files, chunks[..i]), chunks[i], i)
  {
    assert chunks[..i + 1][..i] == chunks[..i];
  }

  /** The results of one more chunk are the earlier results followed by
      that chunk's result. */
  lemma ResultsSnoc(init: seq<Chunk>, c: Chunk)
    ensures Results(init + [c]) == Results(init) + [ChunkResult(c)]
  {
    var longer, shorter := Results(init + [c]), Results(init) + [ChunkResult(c)];
    forall k | 0 <= k < |init| + 1
      ensures longer[k] == shorter[k]
    {
      if k < |init| {
        assert (init + [c])[k] == init[k];
      }
    }
  }

  /** Keeping one more result appends its text unless it is dropped. */
  lemma KeptSnoc(results: seq<Result<string>>, r: Result<string>)
    ensures Dropped(r) ==> Kept(results + [r]) == Kept(results)
    ensures !Dropped(r) ==> Kept(results + [r]) == Kept(results) + [r.value]
  {
    assert (results + [r])[..|results|] == results;
  }

  /** One more turn of the loop appends the chunk's text to the kept
      texts, unless the chunk is dropped. */
  lemma KeptStep(chunks: seq<Chunk>, i: nat)
    requires i < |chunks|
    ensures Dropped(ChunkResult(chunks[i])) ==> Kept(Results(chunks[..i + 1])) == Kept(Results(chunks[..i]))
    ensures !Dropped(ChunkResult(chunks[i])) ==>
      Kept(Results(chunks[..i + 1])) == Kept(Results(chunks[..i])) + [ChunkResult(chunks[i]).value]
  {
    assert chunks[..i + 1] == chunks[..i] + [chunks[i]];
    ResultsSnoc(chunks[..i], chunks[i]);
    KeptSnoc(Results(chunks[..i]), ChunkResult(chunks[i]));
  }

  /** The `for i, chunk in enumerate(chunks)` loop of
      `transcribe_large_audio`: it transcribes the chunks in order and
      collects the texts that `if text:` keeps. */
  method TranscribeChunks(dir: Directory, chunks: seq<Chunk>) returns (fullTranscription: seq<string>)
    modifies dir
    ensures fullTranscription == Kept(Results(chunks))
    ensures dir.files == FilesAfter(old(dir.files), chunks)
  {
    fullTranscription := [];
    var i := 0;
    while i < |chunks|
      invariant 0 <= i <= |chunks|
      invariant fullTranscription == Kept(Results(chunks[..i]))
      invariant dir.files == FilesAfter(old(dir.files), chunks[..i])
    {
      KeptStep(chunks, i);
      FilesStep(old(dir.files), chunks, i);
      var text := TranscribeChunk(dir, chunks[i], i);
      if text.Ok? && text.value != "" {
        fullTranscription := fullTranscription + [text.value];
      }
      i := i + 1;
    }
    assert chunks[..i] == chunks;
  }

  /** `transcribe_large_audio(audio_path, output_file, chunk_length_ms)`.
      `split` stands for `split_audio` on the audio path: it gives the
      chunks for a chunk length, or raises. */
  method TranscribeLargeAudio(dir: Directory, split: nat -> Result<seq<Chunk>>, outputFile: Option<string>, chunkLengthMs: nat)
    returns (r: Result<string>)
    modifies dir
    ensures split(chunkLengthMs).Err? ==> r == Err(split(chunkLengthMs).error) && dir.files == old(dir.files)
    ensures split(chunkLengthMs).Ok? ==>
      var chunks := split(chunkLengthMs).value;
      && r == Ok(Transcript(Results(chunks)))
      && dir.files == Persist(FilesAfter(old(dir.files), chunks), outputFile, r.value)
  {
    var decoded := split(chunkLengthMs);
    if decoded.Err? {
      return Err(decoded.error);
    }
    var chunks := decoded.value;
    var fullTranscription := TranscribeChunks(dir, chunks);
    var completeText := Join(" ", fullTranscription);
    assert completeText == Transcript(Results(chunks));
    if outputFile.Some? && outputFile.value != "" {
      dir.Write(outputFile.value, Utf8(completeText));
    }
    r := Ok(completeText);
  }
}
