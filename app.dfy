/**
 * The script's `main`: check that the audio file exists, load the model,
 * derive the transcript's path and the chunk length, and run the
 * transcription, reporting rather than propagating its errors.
 */
module App {
  import opened Outcomes
  import opened FileSystem
  import opened Paths
  import opened Transcriber

  /** The configuration `main` is written with. */
  const DefaultAudioFile: string := "audio1.mp3"
  const DefaultModelSize: string := "base"
  const DefaultChunkLengthSeconds: nat := 30

  /** `chunk_length_seconds * 1000`: a whole number of seconds, in
      milliseconds. */
  function ChunkLengthMs(seconds: nat): (ms: nat)
    ensures ms % 1000 == 0 && ms / 1000 == seconds
    ensures seconds > 0 ==> ms > 0
  {
    seconds * 1000
  }

  /** With the default configuration the chunks are 30000 ms long and the
      transcript goes to `audio1_transcription.txt`. */
  lemma DefaultConfiguration()
    ensures ChunkLengthMs(DefaultChunkLengthSeconds) == 30000
    ensures OutputName(DefaultAudioFile) == "audio1_transcription.txt"
  {
    OutputNameOfDefault();
  }

  /** How a run of `main` ends. A failure to load the model escapes
      `main`; a failure inside `transcribe_large_audio` is caught and
      reported. */
  datatype RunOutcome =
    | AudioNotFound
    | ModelLoadFailed(error: Error)
    | TranscriptionFailed(error: Error)
    | Completed(transcript: string)

  /** `main` with its configuration as parameters. `loadModel` stands for
      `whisper.load_model`, and `split` for decoding and chunking the audio
      file at a given chunk length. */
  method Run(dir: Directory, audioFile: string, modelSize: string, chunkLengthSeconds: nat,
             loadModel: string -> Result<()>, split: nat -> Result<seq<Chunk>>)
    returns (outcome: RunOutcome)
    modifies dir
    ensures audioFile !in old(dir.files) ==> outcome == AudioNotFound && dir.files == old(dir.files)
    ensures audioFile in old(dir.files) && loadModel(modelSize).Err? ==>
      outcome == ModelLoadFailed(loadModel(modelSize).error) && dir.files == old(dir.files)
    ensures audioFile in old(dir.files) && loadModel(modelSize).Ok? ==>
      var decoded := split(ChunkLengthMs(chunkLengthSeconds));
      && (decoded.Err? ==> outcome == TranscriptionFailed(decoded.error) && dir.files == old(dir.files))
      && (decoded.Ok? ==>
            && outcome == Completed(Transcript(Results(decoded.value)))
            && dir.files == FilesAfter(old(dir.files), decoded.value)[OutputName(audioFile) := Utf8(outcome.transcript)])
  {
    var found := dir.Exists(audioFile);
    if !found {
      return AudioNotFound;
    }
    var loaded := loadModel(modelSize);
    if loaded.Err? {
      return ModelLoadFailed(loaded.error);
    }
    var outputFile := OutputName(audioFile);
    var transcription := TranscribeLargeAudio(dir, split, Some(outputFile), ChunkLengthMs(chunkLengthSeconds));
    match transcription
    case Ok(text) => outcome := Completed(text);
    case Err(e) => outcome := TranscriptionFailed(e);
  }
}
