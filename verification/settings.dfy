/** The configuration the watcher's decisions depend on, its documented
    defaults, the parsing of the comma-separated extension list, and the
    video-file test shared by the event handler and the startup scan. */
module Settings {
  import opened Text
  import opened Paths

  /** The default entries, in the order the default setting lists them. */
  const DefaultEntries: seq<string> :=
    [".mp4", ".avi", ".mkv", ".mov", ".wmv", ".flv", ".webm", ".m4v", ".mpg", ".mpeg"]

  /** The default `video_extensions` setting: the entries above separated by
      commas, ".mp4,.avi,.mkv,.mov,.wmv,.flv,.webm,.m4v,.mpg,.mpeg". */
  const DefaultExtensionList: string := JoinWith(DefaultEntries, ',')

  /** The settings as loaded at startup. Directories are canonical
      absolute path strings; `stabilizationTime` is whatever integer the
      configuration file held, negative values included. */
  datatype Config = Config(
    inputDir: string,
    outputDir: string,
    doneDir: string,
    preset: string,
    extensions: set<string>,
    stabilizationTime: int)

  /** The recognised extensions: each comma-separated entry, stripped.
      Entries are not lower-cased. */
  function ParseExtensions(list: string): (r: set<string>)
    ensures forall e :: e in r ==> ',' !in e && Strip(e) == e
    ensures |r| >= 1
  {
    var parts := Split(list, ',');
    var r := set i | 0 <= i < |parts| :: StrippedPart(parts[i]);
    assert StrippedPart(parts[0]) in r;
    r
  }

  /** One stripped entry of the list, with the facts `ParseExtensions`
      promises about it. */
  function StrippedPart(part: string): (e: string)
    requires ',' !in part
    ensures e == Strip(part) && ',' !in e && Strip(e) == e
  {
    var e := Strip(part);
    StripIdempotent(part);
    assert forall k :: 0 <= k < |e| ==> e[k] == part[LeadingSpace(part) + k];
    e
  }

  /** A list written from comma-free entries, with any spacing around
      them, parses to exactly those entries stripped. */
  lemma ParseJoin(entries: seq<string>)
    requires |entries| >= 1
    requires forall i :: 0 <= i < |entries| ==> ',' !in entries[i]
    ensures ParseExtensions(JoinWith(entries, ',')) == set i | 0 <= i < |entries| :: Strip(entries[i])
  {
    SplitJoin(entries, ',');
    var parts := Split(JoinWith(entries, ','), ',');
    assert forall i :: 0 <= i < |parts| ==> StrippedPart(parts[i]) == Strip(entries[i]);
  }

  const DefaultExtensions: set<string> :=
    {".mp4", ".avi", ".mkv", ".mov", ".wmv", ".flv", ".webm", ".m4v", ".mpg", ".mpeg"}

  /** The default list denotes the ten documented extensions. */
  lemma DefaultExtensionsParsed()
    ensures ParseExtensions(DefaultExtensionList) == DefaultExtensions
  {
    DefaultEntriesClean();
    ParseJoin(DefaultEntries);
    StrippedSet(DefaultEntries);
    DefaultEntriesSet();
  }

  lemma DefaultEntriesClean()
    ensures forall i :: 0 <= i < |DefaultEntries| ==> ',' !in DefaultEntries[i] && Strip(DefaultEntries[i]) == DefaultEntries[i]
  {
    forall i | 0 <= i < |DefaultEntries|
      ensures ',' !in DefaultEntries[i] && Strip(DefaultEntries[i]) == DefaultEntries[i]
    {
      StripNoSpace(DefaultEntries[i]);
    }
  }

  /** Stripping entries that are already stripped changes no entry. */
  lemma StrippedSet(entries: seq<string>)
    requires forall i :: 0 <= i < |entries| ==> Strip(entries[i]) == entries[i]
    ensures (set i | 0 <= i < |entries| :: Strip(entries[i])) == (set i | 0 <= i < |entries| :: entries[i])
  {
  }

  lemma DefaultEntriesSet()
    ensures (set i | 0 <= i < |DefaultEntries| :: DefaultEntries[i]) == DefaultExtensions
  {
    var e := DefaultEntries;
    var s := set i | 0 <= i < |e| :: e[i];
    assert e[0] in s && e[1] in s && e[2] in s && e[3] in s && e[4] in s;
    assert e[5] in s && e[6] in s && e[7] in s && e[8] in s && e[9] in s;
  }

  /** The filter of `process_file` and of the startup scan: the lower-cased
      suffix of the final path component is a recognised extension. */
  predicate IsVideo(path: string, extensions: set<string>) {
    Lower(Suffix(Name(path))) in extensions
  }

  /** Because only the path's suffix is lower-cased, an entry with an
      upper-case letter in the configuration never matches any path. */
  lemma UpperCaseEntryNeverMatches(path: string, extensions: set<string>, e: string)
    requires e in extensions
    requires exists i :: 0 <= i < |e| && 'A' <= e[i] <= 'Z'
    ensures Lower(Suffix(Name(path))) != e
  {
  }
}
