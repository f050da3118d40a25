# AudioScribe transcription core in Dafny

AudioScribe is a single Python script (`app.py`). It transcribes a long
audio file with a Whisper speech model. It splits the audio into
fixed-length chunks and writes each chunk to a temporary WAV file. It asks
the model for that chunk's text and strips surrounding whitespace. It then
removes the temporary file, skips chunks that fail or come back empty,
joins the remaining texts with single spaces, and writes the result to
`<audio path without extension>_transcription.txt`.

This project models that logic and proves what the script guarantees:

- The transcript is the non-empty stripped texts of the chunks that
  succeeded, in chunk order, separated by exactly one space.
- A chunk whose export or model call raises an `Exception` contributes
  nothing and does not stop later chunks.
- Once a chunk's temporary file has been exported, it is gone when
  `transcribe_chunk` returns or re-raises. Files other than temporary
  files are never touched by the loop.
- Distinct chunks use distinct temporary names.
- The transcript written to disk is the one returned. It is written only
  when an output path is given and that path is not empty.

Modules, one per concern of the script:

- `Outcomes` (`outcomes.dfy`): `Error`, `Result` and `Option`. An error
  stands for a raised exception and `Option` for an optional argument.
- `Text` (`text.dfy`): `str.strip()` over Python's exact whitespace set,
  `sep.join(parts)`, and `str(n)` for a non-negative integer together with
  its inverse.
- `Paths` (`paths.dfy`): POSIX `os.path.splitext` and the transcript's file
  name.
- `FileSystem` (`file_system.dfy`): the working directory, as a class whose
  `files` map (name to content) is updated in place.
- `Transcriber` (`transcriber.dfy`): `transcribe_chunk` and
  `transcribe_large_audio` as methods over a `Directory`, with the latter's
  loop as the method `TranscribeChunks`. Each is proved
  against a specification function (`ChunkResult` with `FilesAfterChunk`,
  and `Transcript` with `FilesAfter` and `Persist`), and lemmas then prove
  the guarantees above about those functions.
- `App` (`app.dfy`): `main` with its configuration as parameters.

The libraries the script calls are treated as oracles. Each `Chunk` value
carries the audio samples, what `chunk.export` does with it (succeed, or
raise, possibly leaving a partial file), and what `model.transcribe`
replies (a text, or an error). Decoding and chunking the audio
(`split_audio`) is a function from a chunk length to a chunk list or an
error. Loading the model is a function from the model size to success or an
error. A run corresponds to some choice of these inputs when every exception
raised is an `Exception` and neither `os.remove`, the output write nor a
`print` raises; the other runs have no counterpart in the model (see
"## Left out").

Cleanup does not cover export: `chunk.export` (app.py:54) sits before the
`try` (app.py:56-69), so a file left behind by a failing export is not
removed. `FilesAfterChunk` and `TempFileAfterLoop` state exactly when such a
file survives. The code also exports over, and then deletes, any file that
already had the temporary name; `FilesAfterChunk` removes that name whatever
was there before.

## Model

| member | source | states |
|---|---|---|
| `Text.Strip` | app.py:59 | the result is the input with a whitespace-only prefix and suffix cut off, and has no whitespace at either end |
| `Text.StripUnique` | app.py:59 | any string that trims the input in that way is the result of `Strip`, so the stripping is uniquely determined |
| `Text.StripIdempotent` | app.py:59 | stripping an already stripped text changes nothing |
| `Text.Join` | app.py:105 | `sep.join(parts)`: the empty string for no parts and the part itself for one part; otherwise the result starts with the first part and ends with the last |
| `Text.JoinAppend` | app.py:105 | joining two non-empty lists gives the two joins with exactly one separator between them |
| `Text.JoinSnoc` | app.py:98-105 | appending one part to a non-empty list adds the separator and that part to the joined string |
| `Text.JoinEmptyIff` | app.py:105 | when no part is empty, the joined string is empty exactly when the list is empty |
| `Text.JoinTrimmed` | app.py:105 | joining non-empty trimmed parts gives a trimmed string that starts with the first part and ends with the last |
| `Text.NatToString` | app.py:53 | `str(index)` is a non-empty string of decimal digits with no leading zero |
| `Text.NatToStringRoundTrip` | app.py:53 | reading the decimal string back gives the index again |
| `Text.NatToStringInjective` | app.py:53 | distinct indices have distinct decimal strings |
| `Transcriber.TempName` | app.py:53 | the temporary name is `temp_chunk_`, then the index's decimal digits, then `.wav` |
| `Transcriber.TempNameInjective` | app.py:53 | two chunks with the same temporary name have the same index |
| `Transcriber.ChunkResult` | app.py:54-69 | a chunk yields text exactly when export and the model both succeed; the text is the model's reply stripped; otherwise the export's or the model's own error is raised |
| `Transcriber.FilesAfterChunk` | app.py:53-69 | only the temporary name changes; once exported it is gone whether the model succeeded or raised; a failed export leaves the directory as it was, apart from any partial file |
| `Transcriber.Export` | app.py:54 | export writes the chunk as WAV under the name, or raises its error, having left a partial file or nothing |
| `Transcriber.TranscribeChunk` | app.py:41-69 | returns or raises what `ChunkResult` says and leaves the directory as `FilesAfterChunk` says, removing the file on the normal path and, when it exists, on the error path before re-raising |
| `Transcriber.Results` | app.py:92-96 | one result per chunk, in chunk order, each the chunk's `transcribe_chunk` outcome |
| `Transcriber.Kept` | app.py:90-102 | no kept text is empty and there are no more kept texts than chunks |
| `Transcriber.KeptAppend` | app.py:92-98 | the texts kept from two runs of chunks are the first run's followed by the second's, so chunk order is preserved |
| `Transcriber.KeptSingle` | app.py:95-102 | a single chunk contributes its text exactly when it succeeded with non-empty text |
| `Transcriber.KeptMembers` | app.py:95-102 | a text is kept exactly when some chunk succeeded with that non-empty text |
| `Transcriber.TranscriptSkipsDropped` | app.py:95-102 | a failed or empty chunk anywhere leaves the transcript as if it were absent, so later chunks still contribute |
| `Transcriber.TranscriptAppend` | app.py:105 | the transcript of two runs is their transcripts separated by one space, or one of them when the other is empty, so no separator is doubled or left dangling |
| `Transcriber.Dropped` | app.py:97-102 | a chunk result adds nothing when `transcribe_chunk` raised or its text is empty (the `except` branch, or `if text:` false) |
| `Transcriber.KeptEmptyIff` | app.py:95-102 | nothing is appended exactly when every chunk failed or gave empty text |
| `Transcriber.Transcript` | app.py:97-105 | the kept texts joined with one space; it is empty exactly when every chunk failed or gave empty text |
| `Transcriber.KeptTrimmed` | app.py:59-98 | when every successful text is trimmed, so is every kept text |
| `Transcriber.TranscriptTrimmed` | app.py:59-105 | the transcript has no whitespace at either end |
| `Transcriber.TranscriptAroundDropped` | app.py:95-105 | two non-empty texts around a failed or empty chunk give the two texts separated by exactly one space |
| `Transcriber.HelloWorld` | app.py:95-105 | results "hello", "" and "world" give "hello world", and so do "hello", an error and "world" |
| `Transcriber.FilesAfter` | app.py:92-102 | the directory after `transcribe_chunk` has run on every chunk in order; every file other than the chunks' temporary files is as it was |
| `Transcriber.TempFileAfterLoop` | app.py:53-69 | after the loop, chunk i's temporary file exists exactly when its export failed and either left a partial file or did not replace an existing file |
| `Transcriber.TempNameDistinct` | app.py:53 | different indices give different temporary names |
| `Transcriber.TempNameNotEarlier` | app.py:53 | a chunk's temporary name is not the name of any earlier chunk |
| `Transcriber.NoTempFileLeft` | app.py:56-69 | when every export succeeded, no temporary file remains after the loop, even for chunks whose model call failed |
| `Transcriber.Persist` | app.py:108-110 | when the output path is given and not empty, that file holds exactly the transcript and nothing else changes; otherwise nothing changes |
| `Transcriber.TranscribeChunks` | app.py:92-102 | the loop over `enumerate(chunks)` returns exactly the kept texts `Kept(Results(chunks))`, in order, and leaves the directory as `FilesAfter` says |
| `Transcriber.TranscribeLargeAudio` | app.py:71-117 | a decoding error propagates and changes nothing; otherwise it runs the loop, returns `Transcript(Results(chunks))`, and the directory becomes `Persist(FilesAfter(...), output_file, transcript)` |
| `FileSystem.Directory.Exists` | app.py:67 | reports whether the name is a file of the directory |
| `FileSystem.Directory.Remove` | app.py:62 | the name is no longer a file and nothing else changes |
| `FileSystem.Directory.Write` | app.py:109-110 | the name now holds the given content, created or overwritten, and nothing else changes |
| `Paths.LastIndexOf` | app.py:138 | the result is the position of the last occurrence of the character, or -1 when there is none |
| `Paths.SplitExt` | app.py:138 | root and extension concatenate to the path; the extension is empty or one dot followed by no dot or slash; when a non-dot character of the last path component precedes its last dot, the split is at that dot, and only then is the extension non-empty |
| `Paths.OutputName` | app.py:138-139 | the transcript path ends in `_transcription.txt`, and what precedes that, followed by the audio path's extension, is the audio path |
| `Paths.OutputNameOfDefault` | app.py:121-139 | `audio1.mp3` gives `audio1_transcription.txt` |
| `Paths.OutputNameOfDoubleExtension` | app.py:138-139 | only the last extension is removed: `talk.tar.gz` gives `talk.tar_transcription.txt` |
| `Paths.OutputNameOfDottedDirectory` | app.py:138-139 | a dot in a directory name is not an extension |
| `Paths.OutputNameOfHiddenFile` | app.py:138-139 | a leading dot does not start an extension |
| `App.ChunkLengthMs` | app.py:146 | the chunk length in milliseconds is a whole number of seconds equal to the configured seconds, and positive when they are |
| `App.DefaultConfiguration` | app.py:121-146 | the default configuration uses 30000 ms chunks and writes `audio1_transcription.txt` |
| `App.Run` | app.py:119-154 | a missing audio file ends the run with no change; a model-load failure escapes with no change; a transcription error is reported with no change; otherwise the transcript is returned and written to the derived output path, with temporary files handled as in the loop |

## Left out

- Whisper model loading and inference (app.py:18, 58): foreign machine-learning code. Each is an oracle input (`loadModel`, `Chunk.reply`).
- pydub decoding, `make_chunks` and WAV encoding (app.py:33, 38, 54): the library's source is not part of this model. The chunk list is an input (`split`), so the chunk-count arithmetic `ceil(L / chunk_length_ms)` is not proved. A chunk's audio is an abstract list of samples.
- Real file-system I/O: the directory is a map from names to contents. `os.remove` is only called on a file the script knows exists, so its missing-file error is not modelled. Writing the output file is modelled as always succeeding. Encoding the transcript as UTF-8 bytes is not modelled.
- Console output, the progress messages, and the float-based duration and timing reports: the `print` calls at app.py:17, 19, 32, 35-36, 88, 93, 99, 101, 111, 114-115, 130-131, 149-151 and 154, and the clock reads at app.py:83 and 113.
- The `AudioTranscriber` class: its only field, `model`, is set once at construction and never updated. The model therefore has no class for it. Its methods are module-level methods over the directory, and loading the model is the `loadModel` oracle in `App.Run`.
- Exceptions that are not `Exception` subclasses (`KeyboardInterrupt`, `SystemExit`) raised inside `model.transcribe` (app.py:58): the handlers at app.py:65 and app.py:100 catch only `Exception`, so such a run leaves the exported temporary file behind and aborts the loop. `FilesAfterChunk` and the loop always clean up and run to the end.
- A `print` that raises inside the loop's handler (app.py:101, for example when standard output cannot encode the error text): the error escapes the loop, is reported at app.py:153-154, and no output file is written. The model treats printing as having no effect.
- The model-size preset (app.py:125) is passed through to `loadModel`, but the set of valid sizes is Whisper's concern.
- Text.IsSpace: covers Python's whitespace over Unicode scalar values. Python strings can also hold lone surrogate code points, which Dafny characters cannot represent.
- Paths.SplitExt: models POSIX `os.path.splitext` (separator `/`). Windows' alternate separator and drive letters are not modelled.
- Transcriber.Export: what a failing export leaves behind is an oracle choice: a partial file holding the chunk, or nothing. Any other on-disk effect of pydub is not modelled.
- App.Run: the preview slicing `transcription[:500]` is console output and is left out. Exceptions other than those from decoding and loading (for example, a failing output write) are not modelled.
