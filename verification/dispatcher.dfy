/** `VideoFileHandler` and the startup part of `main`: which paths reach
    `encode_video`, the set of paths being processed, the two watchdog
    callbacks, and the scan of files already in the input directory.
    Paths are taken as already resolved to absolute canonical strings. */
module Dispatcher {
  import opened Wrappers
  import opened Text
  import opened Paths
  import opened Settings
  import opened Stability
  import opened Progress
  import opened Encoder
  import opened Presets

  /** What `process_file` observes about one path. */
  datatype World = World(
    present: bool,          // `file_path.exists()`
    samples: seq<Sample>,   // the polls the stability wait would make
    env: Env,               // what `encode_video` then observes
    escapes: bool)          // an exception escapes `encode_video`'s own handlers

  /** How the call to `encode_video` ended as seen from `process_file`,
      whose handler logs an escaping exception and carries on. */
  datatype Call = Returned(report: Report) | Raised

  /** Why `process_file` stopped, or what it did. */
  datatype Outcome =
    | NotVideo              // the suffix is not a recognised extension
    | AlreadyInFlight       // the path is in the processing set
    | Missing               // the path does not exist
    | StillWaiting(waiting: set<string>)
      // the stability wait outlasts the polls given; `waiting` is the
      // processing set while it runs
    | Encoded(waiting: set<string>, during: set<string>, call: Call)
      // the set while the wait ran, the set while `encode_video` ran,
      // and how that call ended

  /** The processing set afterwards and the outcome. */
  datatype Handled = Handled(after: set<string>, outcome: Outcome)

  /** The `try` around `encode_video` in `process_file`. */
  function Attempt(cfg: Config, path: string, w: World, read: FloatReader): (c: Call)
    ensures c.Raised? <==> w.escapes
  {
    if w.escapes then Raised else Returned(EncodeVideo(cfg, path, w.env, read))
  }

  /** `process_file(path)` with the processing set `inFlight`. The path
      joins the set only once the file has stabilised and leaves it in
      the `finally` clause, so the set is the same afterwards. */
  function ProcessFile(inFlight: set<string>, path: string, cfg: Config, w: World, read: FloatReader): (r: Handled)
    ensures r.after == inFlight
    ensures r.outcome.NotVideo? <==> !IsVideo(path, cfg.extensions)
    ensures r.outcome.AlreadyInFlight? <==> IsVideo(path, cfg.extensions) && path in inFlight
    ensures r.outcome.Missing? <==>
      IsVideo(path, cfg.extensions) && path !in inFlight && !w.present
    ensures r.outcome.StillWaiting? <==>
      IsVideo(path, cfg.extensions) && path !in inFlight && w.present &&
      FirstStable(w.samples, cfg.stabilizationTime).None?
    ensures r.outcome.Encoded? <==>
      IsVideo(path, cfg.extensions) && path !in inFlight && w.present &&
      FirstStable(w.samples, cfg.stabilizationTime).Some?
    ensures r.outcome.StillWaiting? || r.outcome.Encoded? ==>
      r.outcome.waiting == inFlight && path !in r.outcome.waiting
    ensures r.outcome.Encoded? ==> path !in inFlight && r.outcome.during == inFlight + {path}
    ensures r.outcome.Encoded? ==>
      r.outcome.call == Attempt(cfg, path, w, read)
  {
    if !IsVideo(path, cfg.extensions) then Handled(inFlight, NotVideo)
    else if path in inFlight then Handled(inFlight, AlreadyInFlight)
    else if !w.present then Handled(inFlight, Missing)
    else Settle(inFlight, path, cfg, w, read)
  }

  /** The rest of `process_file` once the checks passed: the stability
      wait, then the path is in the set exactly while `encode_video` runs. */
  function Settle(inFlight: set<string>, path: string, cfg: Config, w: World, read: FloatReader): (r: Handled)
    requires path !in inFlight
    ensures r.after == inFlight
    ensures r.outcome.StillWaiting? <==> FirstStable(w.samples, cfg.stabilizationTime).None?
    ensures r.outcome.Encoded? <==> FirstStable(w.samples, cfg.stabilizationTime).Some?
    ensures r.outcome.StillWaiting? || r.outcome.Encoded? ==> r.outcome.waiting == inFlight
    ensures r.outcome.Encoded? ==> r.outcome.during == inFlight + {path}
    ensures r.outcome.Encoded? ==> r.outcome.call == Attempt(cfg, path, w, read)
  {
    if FirstStable(w.samples, cfg.stabilizationTime).None? then Handled(inFlight, StillWaiting(inFlight))
    else
      var during := inFlight + {path};
      var call := Attempt(cfg, path, w, read);
      Handled(during - {path}, Encoded(inFlight, during, call))
  }

  /** A second event for a path that is being encoded is dropped. */
  lemma DuplicateWhileEncodingIgnored(inFlight: set<string>, path: string, cfg: Config,
                                      w: World, w2: World, read: FloatReader)
    requires ProcessFile(inFlight, path, cfg, w, read).outcome.Encoded?
    ensures ProcessFile(ProcessFile(inFlight, path, cfg, w, read).outcome.during, path, cfg, w2, read).outcome
      == AlreadyInFlight
  {
  }

  /** The path is not in the set while the stability wait runs, so an event
      for it arriving then is processed in full a second time. */
  lemma EventDuringWaitNotDeduplicated(inFlight: set<string>, path: string, cfg: Config,
                                       w: World, w2: World, read: FloatReader)
    requires IsVideo(path, cfg.extensions) && path !in inFlight && w.present
    requires FirstStable(w.samples, cfg.stabilizationTime).Some?
    requires w2.present && FirstStable(w2.samples, cfg.stabilizationTime).Some?
    ensures ProcessFile(inFlight, path, cfg, w, read).outcome.Encoded?
    ensures ProcessFile(ProcessFile(inFlight, path, cfg, w, read).outcome.waiting, path, cfg, w2, read).outcome.Encoded?
  {
  }

  /** A file-system event delivered by the observer. */
  datatype Event =
    | Created(src: string, isDirectory: bool)
    | MovedTo(src: string, dest: string, isDirectory: bool)

  /** The path the handlers pass on: the source of a creation, the
      destination of a move. */
  function EventPath(e: Event): string {
    match e
    case Created(src, _) => src
    case MovedTo(_, dest, _) => dest
  }

  /** `on_created` / `on_moved`: directory events are ignored, every other
      event goes to `process_file`. */
  function HandleEvent(inFlight: set<string>, e: Event, cfg: Config, world: string -> World,
                       read: FloatReader): (r: Option<Handled>)
    ensures r.None? <==> e.isDirectory
    ensures r.Some? ==> r.value.after == inFlight
    ensures r.Some? && e.MovedTo? ==> (r.value.outcome.NotVideo? <==> !IsVideo(e.dest, cfg.extensions))
    ensures r.Some? && e.Created? ==> (r.value.outcome.NotVideo? <==> !IsVideo(e.src, cfg.extensions))
  {
    if e.isDirectory then None
    else Some(ProcessFile(inFlight, EventPath(e), cfg, world(EventPath(e)), read))
  }

  /** A created file is processed under the path it was created at. */
  lemma CreateUsesSource(inFlight: set<string>, src: string, cfg: Config,
                         world: string -> World, read: FloatReader)
    ensures HandleEvent(inFlight, Created(src, false), cfg, world, read) ==
      Some(ProcessFile(inFlight, src, cfg, world(src), read))
  {
  }

  /** Renaming a finished download onto a video name starts the pipeline
      for the new name, whatever the old name was. */
  lemma MoveUsesDestination(inFlight: set<string>, src: string, dest: string, cfg: Config,
                            world: string -> World, read: FloatReader)
    ensures HandleEvent(inFlight, MovedTo(src, dest, false), cfg, world, read) ==
      Some(ProcessFile(inFlight, dest, cfg, world(dest), read))
  {
  }

  /** One entry of the input directory. */
  datatype Entry = Entry(path: string, isFile: bool)

  /** The paths of the entries `keep` accepts, in directory order. */
  function Select(entries: seq<Entry>, keep: Entry -> bool): (r: seq<string>)
    ensures |r| <= |entries|
  {
    if |entries| == 0 then []
    else
      var rest := Select(entries[1..], keep);
      if keep(entries[0]) then [entries[0].path] + rest else rest
  }

  /** `Select` keeps exactly the paths of the accepted entries. */
  lemma {:induction false} SelectMembers(entries: seq<Entry>, keep: Entry -> bool)
    ensures forall p :: p in Select(entries, keep) <==>
      exists i :: 0 <= i < |entries| && entries[i].path == p && keep(entries[i])
    decreases |entries|
  {
    if |entries| > 0 {
      SelectMembers(entries[1..], keep);
      assert forall i :: 1 <= i < |entries| ==> entries[i] == entries[1..][i - 1];
    }
  }

  /** The startup scan's filter: regular files with a recognised
      extension, in directory order. */
  function ExistingVideos(entries: seq<Entry>, extensions: set<string>): (r: seq<string>)
    ensures |r| <= |entries|
  {
    Select(entries, (e: Entry) => e.isFile && IsVideo(e.path, extensions))
  }

  /** The scan keeps exactly the regular files with a recognised
      extension. */
  lemma ExistingVideosMembers(entries: seq<Entry>, extensions: set<string>)
    ensures forall p :: p in ExistingVideos(entries, extensions) <==>
      exists i :: 0 <= i < |entries| && entries[i].path == p && entries[i].isFile && IsVideo(p, extensions)
    ensures forall k :: 0 <= k < |ExistingVideos(entries, extensions)| ==>
      IsVideo(ExistingVideos(entries, extensions)[k], extensions)
  {
    var r := ExistingVideos(entries, extensions);
    SelectMembers(entries, (e: Entry) => e.isFile && IsVideo(e.path, extensions));
    assert forall k :: 0 <= k < |r| ==> r[k] in r;
  }

  /** `process_file` on each path in turn, threading the processing set. */
  function ProcessAll(inFlight: set<string>, paths: seq<string>, cfg: Config,
                      world: string -> World, read: FloatReader): (r: seq<Outcome>)
    ensures |r| == |paths|
    ensures forall i :: 0 <= i < |paths| ==>
      r[i] == ProcessFile(inFlight, paths[i], cfg, world(paths[i]), read).outcome
  {
    if |paths| == 0 then []
    else
      var h := ProcessFile(inFlight, paths[0], cfg, world(paths[0]), read);
      var rest := ProcessAll(h.after, paths[1..], cfg, world, read);
      assert h.after == inFlight;
      assert forall i :: 1 <= i < |paths| ==> paths[1..][i - 1] == paths[i];
      [h.outcome] + rest
  }

  /** How startup ends: `sys.exit(1)` when HandBrakeCLI is missing, or
      watching after the preset check and the initial scan. */
  datatype Startup =
    | Exited(code: int)
    | Watching(presets: PresetCheck, queue: seq<string>, outcomes: seq<Outcome>)

  /** The part of `main` between the directory set-up and the observer:
      the installation probe, the informational preset check, and the
      existing files processed one after another with an empty set. */
  function StartWatcher(cfg: Config, installed: bool, presetListing: Option<string>,
                        entries: seq<Entry>, world: string -> World, read: FloatReader): (r: Startup)
    ensures r.Exited? <==> !installed
    ensures r.Exited? ==> r.code == 1
    ensures r.Watching? ==> r.presets == CheckPresetAvailability(presetListing, cfg.preset)
    ensures r.Watching? ==> forall p :: p in r.queue <==>
      exists i :: 0 <= i < |entries| && entries[i].path == p && entries[i].isFile && IsVideo(p, cfg.extensions)
    ensures r.Watching? ==> |r.outcomes| == |r.queue|
    ensures r.Watching? ==>
      forall i :: 0 <= i < |r.queue| ==> !r.outcomes[i].NotVideo? && !r.outcomes[i].AlreadyInFlight?
  {
    if !installed then Exited(1)
    else
      var queue := ExistingVideos(entries, cfg.extensions);
      ExistingVideosMembers(entries, cfg.extensions);
      var outcomes := ProcessAll({}, queue, cfg, world, read);
      Watching(CheckPresetAvailability(presetListing, cfg.preset), queue, outcomes)
  }

  /** With the default extensions, a Matroska file in the input directory
      is queued at startup and a text file next to it is not. */
  lemma StartupQueuesOnlyVideos(cfg: Config, dir: string, movie: string, notes: string,
                                world: string -> World, read: FloatReader)
    requires cfg.extensions == DefaultExtensions
    requires |movie| > 0 && NoSlash(movie) && |notes| > 0 && NoSlash(notes)
    ensures var entries := [Entry(Join(dir, movie + ".mkv"), true), Entry(Join(dir, notes + ".txt"), true)];
      StartWatcher(cfg, true, None, entries, world, read).queue == [Join(dir, movie + ".mkv")]
  {
    var video := Join(dir, movie + ".mkv");
    var text := Join(dir, notes + ".txt");
    ScanOfMovieAndNotes(dir, movie, notes);
    StartupQueue(cfg, None, [Entry(video, true), Entry(text, true)], world, read);
  }

  /** The scan part of the scenario above. */
  lemma ScanOfMovieAndNotes(dir: string, movie: string, notes: string)
    requires |movie| > 0 && NoSlash(movie) && |notes| > 0 && NoSlash(notes)
    ensures ExistingVideos([Entry(Join(dir, movie + ".mkv"), true), Entry(Join(dir, notes + ".txt"), true)],
                           DefaultExtensions) == [Join(dir, movie + ".mkv")]
  {
    MatroskaIsVideo(dir, movie);
    TextIsNotVideo(dir, notes);
    QueueOfTwo(Join(dir, movie + ".mkv"), Join(dir, notes + ".txt"), DefaultExtensions);
  }

  lemma MatroskaIsVideo(dir: string, movie: string)
    requires |movie| > 0 && NoSlash(movie)
    ensures IsVideo(Join(dir, movie + ".mkv"), DefaultExtensions)
  {
    var mkv: string := "mkv";
    DotConcat(movie, mkv, ".mkv");
    DottedLower(mkv);
    DefaultFilter();
    FilterByExtension(dir, movie, mkv, DefaultExtensions);
  }

  lemma TextIsNotVideo(dir: string, notes: string)
    requires |notes| > 0 && NoSlash(notes)
    ensures !IsVideo(Join(dir, notes + ".txt"), DefaultExtensions)
  {
    var txt: string := "txt";
    DotConcat(notes, txt, ".txt");
    DottedLower(txt);
    DefaultFilter();
    FilterByExtension(dir, notes, txt, DefaultExtensions);
  }

  /** The filter lower-cases the suffix, so a file ending in ".MKV" is
      treated as a Matroska file too. */
  lemma UpperCaseSuffixIsVideo(dir: string, movie: string)
    requires |movie| > 0 && NoSlash(movie)
    ensures IsVideo(Join(dir, movie + ".MKV"), DefaultExtensions)
  {
    var mkv: string := "MKV";
    DotConcat(movie, mkv, ".MKV");
    LowerMatroska();
    DefaultFilter();
    FilterByExtension(dir, movie, mkv, DefaultExtensions);
  }

  /** Kept apart so that literal concatenation is not unfolded next to
      the filter. */
  lemma DotConcat(stem: string, ext: string, dotted: string)
    requires dotted == "." + ext
    ensures stem + "." + ext == stem + dotted
  {
  }

  /** ".mkv" is a default extension and ".txt" is not. */
  lemma DefaultFilter()
    ensures "." + "mkv" in DefaultExtensions
    ensures "." + "txt" !in DefaultExtensions
  {
    assert "." + "mkv" == ".mkv";
    assert "." + "txt" == ".txt";
  }

  /** ".MKV" lower-cases to ".mkv". */
  lemma LowerMatroska()
    ensures Lower("." + "MKV") == "." + "mkv"
  {
    var l := Lower("." + "MKV");
    assert l[0] == '.' && l[1] == 'm' && l[2] == 'k' && l[3] == 'v';
  }

  /** Once HandBrakeCLI is found, the queue is the scan's result. */
  lemma StartupQueue(cfg: Config, presetListing: Option<string>, entries: seq<Entry>,
                     world: string -> World, read: FloatReader)
    ensures StartWatcher(cfg, true, presetListing, entries, world, read).queue ==
      ExistingVideos(entries, cfg.extensions)
  {
  }

  /** The scan keeps the directory order: the first entry, when it
      qualifies, comes before everything kept from the rest. */
  lemma ExistingVideosCons(e: Entry, rest: seq<Entry>, extensions: set<string>)
    ensures ExistingVideos([e] + rest, extensions) ==
      (if e.isFile && IsVideo(e.path, extensions) then [e.path] else []) + ExistingVideos(rest, extensions)
  {
    assert ([e] + rest)[1..] == rest;
  }

  /** Of two files, only the one with a recognised extension is queued. */
  lemma QueueOfTwo(video: string, other: string, extensions: set<string>)
    requires IsVideo(video, extensions) && !IsVideo(other, extensions)
    ensures ExistingVideos([Entry(video, true), Entry(other, true)], extensions) == [video]
  {
    var first := Entry(video, true);
    var second := Entry(other, true);
    PairDisplay(first, second);
    KeepVideo(video, [second] + [], extensions);
    SkipOther(other, [], extensions);
    EmptyScan(extensions);
  }

  /** Kept apart so that the display is not unfolded next to the scan. */
  lemma PairDisplay(a: Entry, b: Entry)
    ensures [a, b] == [a] + ([b] + [])
  {
  }

  lemma EmptyScan(extensions: set<string>)
    ensures ExistingVideos([], extensions) == []
  {
  }

  lemma KeepVideo(video: string, rest: seq<Entry>, extensions: set<string>)
    requires IsVideo(video, extensions)
    ensures ExistingVideos([Entry(video, true)] + rest, extensions) == [video] + ExistingVideos(rest, extensions)
  {
    ExistingVideosCons(Entry(video, true), rest, extensions);
  }

  lemma SkipOther(other: string, rest: seq<Entry>, extensions: set<string>)
    requires !IsVideo(other, extensions)
    ensures ExistingVideos([Entry(other, true)] + rest, extensions) == ExistingVideos(rest, extensions)
  {
    ExistingVideosCons(Entry(other, true), rest, extensions);
  }

  /** `<dir>/<stem>.<ext>` passes the filter exactly when ".<ext>",
      lower-cased, is a recognised extension. */
  lemma FilterByExtension(dir: string, stem: string, ext: string, extensions: set<string>)
    requires |stem| > 0 && NoSlash(stem) && |ext| > 0
    requires forall i :: 0 <= i < |ext| ==> ext[i] != '.' && ext[i] != '/'
    ensures IsVideo(Join(dir, stem + "." + ext), extensions) <==> Lower("." + ext) in extensions
  {
    NamedFileSuffix(dir, stem, ext);
  }

  /** Lower-casing a dot and letters that are not upper-case changes
      nothing. */
  lemma DottedLower(ext: string)
    requires forall i :: 0 <= i < |ext| ==> !('A' <= ext[i] <= 'Z')
    ensures Lower("." + ext) == "." + ext
  {
    var dotted := "." + ext;
    assert forall i :: 1 <= i < |dotted| ==> dotted[i] == ext[i - 1];
    LowerLiteral(dotted);
  }

  /** The suffix of `<dir>/<stem>.<ext>` is `.<ext>`. */
  lemma NamedFileSuffix(dir: string, stem: string, ext: string)
    requires |stem| > 0 && NoSlash(stem) && |ext| > 0
    requires forall i :: 0 <= i < |ext| ==> ext[i] != '.' && ext[i] != '/'
    ensures Suffix(Name(Join(dir, stem + "." + ext))) == "." + ext
  {
    assert NoSlash("." + ext);
    ConcatNoSlash(stem, "." + ext);
    assert stem + "." + ext == stem + ("." + ext);
    NameOfJoin(dir, stem + "." + ext);
    SuffixOfDottedTail(stem, ext);
  }

  /** Lower-casing leaves a string without upper-case letters unchanged. */
  lemma LowerLiteral(s: string)
    requires forall i :: 0 <= i < |s| ==> !('A' <= s[i] <= 'Z')
    ensures Lower(s) == s
  {
  }
}
