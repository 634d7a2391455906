/** `encode_video`: the output and done paths, the per-file checks before
    the encoder is launched, and what happens after it exits. Everything
    the function observes of the outside world is an `Env` field; the
    encoder's output lines go through the `Progress` loop. */
module Encoder {
  import opened Text
  import opened Paths
  import opened Settings
  import opened Progress

  /** The paths and command line of one encode attempt. */
  datatype Job = Job(input: string, output: string, done: string, command: seq<string>)

  const OutputTail := "_encoded.mp4"

  lemma OutputTailNoSlash()
    ensures NoSlash(OutputTail)
  {
  }

  /** The file name of the encoded output. */
  function OutputName(input: string): (r: string)
    ensures NoSlash(r)
  {
    StemNoSlash(Name(input));
    OutputTailNoSlash();
    ConcatNoSlash(Stem(Name(input)), OutputTail);
    Stem(Name(input)) + OutputTail
  }

  /** Whatever the stem, the output name has the extension ".mp4" and the
      stem followed by "_encoded" as its own stem. */
  lemma EncodedSuffix(stem: string)
    ensures Suffix(stem + OutputTail) == ".mp4"
    ensures Stem(stem + OutputTail) == stem + "_encoded"
  {
    var head := stem + "_encoded";
    var tail: string := "mp4";
    assert OutputTail == "_encoded" + ("." + tail);
    assert stem + ("_encoded" + ("." + tail)) == head + ("." + tail);
    assert head + ("." + tail) == (head + ".") + tail;
    assert |tail| == 3 && tail[0] != '.' && tail[1] != '.' && tail[2] != '.';
    SuffixOfDottedTail(head, tail);
  }

  /** A joined path starts with its directory. */
  lemma JoinPrefix(dir: string, name: string)
    ensures |dir| <= |Join(dir, name)| && Join(dir, name)[..|dir|] == dir
  {
  }

  /** The paths and the `HandBrakeCLI` command line of one attempt. */
  function MakeJob(cfg: Config, input: string): (j: Job)
    ensures j.input == input
    ensures j.command == ["HandBrakeCLI", "--input", input, "--output", j.output, "--preset", cfg.preset]
  {
    var output := Join(cfg.outputDir, OutputName(input));
    var done := Join(cfg.doneDir, Name(input));
    Job(input, output, done,
        ["HandBrakeCLI", "--input", input, "--output", output, "--preset", cfg.preset])
  }

  /** The output is `<output dir>/<stem>_encoded.mp4`, always with the
      ".mp4" extension whatever the input's extension was; the done path
      is `<done dir>/<name>`, so the input keeps its name when it moves. */
  lemma JobPaths(cfg: Config, input: string)
    ensures Name(MakeJob(cfg, input).output) == Stem(Name(input)) + "_encoded.mp4"
    ensures Suffix(Name(MakeJob(cfg, input).output)) == ".mp4"
    ensures Stem(Name(MakeJob(cfg, input).output)) == Stem(Name(input)) + "_encoded"
    ensures Name(MakeJob(cfg, input).done) == Name(input)
    ensures |cfg.outputDir| <= |MakeJob(cfg, input).output|
    ensures MakeJob(cfg, input).output[..|cfg.outputDir|] == cfg.outputDir
    ensures |cfg.doneDir| <= |MakeJob(cfg, input).done|
    ensures MakeJob(cfg, input).done[..|cfg.doneDir|] == cfg.doneDir
  {
    var name := OutputName(input);
    NameOfJoin(cfg.outputDir, name);
    NameOfJoin(cfg.doneDir, Name(input));
    EncodedSuffix(Stem(Name(input)));
    JoinPrefix(cfg.outputDir, name);
    JoinPrefix(cfg.doneDir, Name(input));
  }

  /** What `encode_video` observes, in the order it observes it. */
  datatype Env = Env(
    probeOk: bool,          // `HandBrakeCLI --version` ran and exited 0
    inputBefore: bool,      // the input exists before the launch
    raises: bool,           // launching, reading or waiting on the child raised
    lines: seq<string>,     // the child's combined stdout and stderr
    returnCode: int,        // the child's exit status
    inputAfter: bool,       // the input still exists after a zero exit
    renameOk: bool,         // creating the done directory and the rename succeed
    outputExists: bool,     // an output file exists when cleanup looks for one
    unlinkOk: bool)         // deleting that file succeeds

  /** Which way `encode_video` ended. */
  datatype Verdict =
    | NoEncoder             // the version probe failed
    | InputMissing          // the input was gone before the launch
    | Crashed               // an exception reached the outer handler
    | EncodeFailed(code: int)
    | InputGone             // exit 0, but the input vanished before the move
    | Moved                 // exit 0 and the input went to the done directory
    | MoveFailed            // exit 0, the move raised and was only logged

  /** The Boolean `encode_video` returns for each way of ending. */
  predicate Returns(v: Verdict) {
    v.InputGone? || v.Moved? || v.MoveFailed?
  }

  /** The outcome of one call and its effects on the file system. */
  datatype Report = Report(
    job: Job,
    verdict: Verdict,
    renamed: bool,          // the input was renamed to the done path
    outputDeleted: bool,    // the output file was unlinked
    shown: seq<Update>,     // progress refreshes displayed
    logged: seq<string>)    // lines sent to the debug log

  /** The exception path is taken when the environment raises or when a
      progress line reads as a value too large to handle. */
  predicate Crashes(env: Env, read: FloatReader) {
    env.raises || ReadsTooLarge(env.lines, read)
  }

  /** What happens once both per-file checks have passed: `crashed` says
      whether an exception reached the outer handler, `m` is the progress
      state when the child's output ended. */
  function Finish(job: Job, env: Env, crashed: bool, m: Monitor): (r: Report)
    ensures r.job == job
    ensures Returns(r.verdict) <==> !crashed && env.returnCode == 0
    ensures r.renamed <==> Returns(r.verdict) && env.inputAfter && env.renameOk
    ensures r.outputDeleted <==> !Returns(r.verdict) && env.outputExists && env.unlinkOk
    ensures crashed ==> r.verdict == Crashed && r.shown == [] && r.logged == []
    ensures !crashed ==> r.shown == m.shown && r.logged == m.logged
    ensures !crashed && env.returnCode != 0 ==>
      r.verdict == (if env.outputExists && !env.unlinkOk then Crashed else EncodeFailed(env.returnCode))
    ensures Returns(r.verdict) && !env.inputAfter ==> r.verdict == InputGone
    ensures Returns(r.verdict) && env.inputAfter ==> r.verdict == (if env.renameOk then Moved else MoveFailed)
  {
    var cleanup := env.outputExists && env.unlinkOk;
    if crashed then Report(job, Crashed, false, cleanup, [], [])
    else if env.returnCode == 0 then
      if !env.inputAfter then Report(job, InputGone, false, false, m.shown, m.logged)
      else if env.renameOk then Report(job, Moved, true, false, m.shown, m.logged)
      else Report(job, MoveFailed, false, false, m.shown, m.logged)
    else if env.outputExists && !env.unlinkOk then
      // the unguarded unlink raised: the outer handler tries it once more
      Report(job, Crashed, false, false, m.shown, m.logged)
    else Report(job, EncodeFailed(env.returnCode), false, cleanup, m.shown, m.logged)
  }

  /** `encode_video(input)`. */
  function EncodeVideo(cfg: Config, input: string, env: Env, read: FloatReader): (r: Report)
    ensures r.job == MakeJob(cfg, input)
    ensures Returns(r.verdict) <==>
      env.probeOk && env.inputBefore && !Crashes(env, read) && env.returnCode == 0
    ensures r.renamed <==> Returns(r.verdict) && env.inputAfter && env.renameOk
    ensures r.outputDeleted <==>
      env.probeOk && env.inputBefore && !Returns(r.verdict) && env.outputExists && env.unlinkOk
    ensures !env.probeOk ==> r.verdict == NoEncoder
    ensures env.probeOk && !env.inputBefore ==> r.verdict == InputMissing
    ensures env.probeOk && env.inputBefore && Crashes(env, read) ==> r.verdict == Crashed
    ensures env.probeOk && env.inputBefore && !Crashes(env, read) && env.returnCode != 0 ==>
      r.verdict == (if env.outputExists && !env.unlinkOk then Crashed else EncodeFailed(env.returnCode))
    ensures Returns(r.verdict) && !env.inputAfter ==> r.verdict == InputGone
    ensures Returns(r.verdict) && env.inputAfter ==> r.verdict == (if env.renameOk then Moved else MoveFailed)
    ensures !Crashes(env, read) && env.probeOk && env.inputBefore ==>
      FeedAll(env.lines, read).Scanning? &&
      r.shown == FeedAll(env.lines, read).m.shown && r.logged == FeedAll(env.lines, read).m.logged
  {
    var job := MakeJob(cfg, input);
    if !env.probeOk then Report(job, NoEncoder, false, false, [], [])
    else if !env.inputBefore then Report(job, InputMissing, false, false, [], [])
    else
      OverflowMeaning(env.lines, read);
      var scan := FeedAll(env.lines, read);
      var crashed := env.raises || scan.Overflowed?;
      assert crashed == Crashes(env, read);
      Finish(job, env, crashed, if scan.Scanning? then scan.m else Fresh)
  }

  /** A successful encode never deletes the output, and a deleted output
      never comes with a moved input. */
  lemma RenameAndCleanupExclusive(cfg: Config, input: string, env: Env, read: FloatReader)
    ensures !(EncodeVideo(cfg, input, env, read).renamed && EncodeVideo(cfg, input, env, read).outputDeleted)
    ensures Returns(EncodeVideo(cfg, input, env, read).verdict) ==> !EncodeVideo(cfg, input, env, read).outputDeleted
  {
  }
}
