/** `check_preset_availability`: the configured preset is looked for among
    the stripped lines of `HandBrakeCLI --preset-list`; when it is absent,
    up to ten entries of the "General/" section are listed for the user.
    The result is informational only: startup carries on either way. */
module Presets {
  import opened Wrappers
  import opened Text

  const GeneralHeader := "General/"
  const ListLimit := 10

  /** Whether the preset was found, and the entries listed when it was not. */
  datatype PresetCheck = PresetCheck(available: bool, listed: seq<string>)

  /** The listing's lines, each stripped. */
  function Lines(listing: string): (r: seq<string>)
    ensures |r| == |Split(listing, '\n')|
    ensures forall i :: 0 <= i < |r| ==> r[i] == Strip(Split(listing, '\n')[i])
  {
    var parts := Split(listing, '\n');
    seq(|parts|, i requires 0 <= i < |parts| => Strip(parts[i]))
  }

  /** The listing loop after the preset was not found, line by line:
      "General/" enters (or re-enters) the section, any other line ending
      in a slash ends the scan once inside it, and a non-empty line inside
      it is listed while fewer than ten were. */
  function GeneralScan(lines: seq<string>, inGeneral: bool, count: nat): (r: seq<string>)
    ensures count <= ListLimit ==> |r| <= ListLimit - count
    ensures forall i :: 0 <= i < |r| ==> r[i] != "" && !EndsWith(r[i], "/")
    decreases |lines|
  {
    if |lines| == 0 then []
    else
      var line := lines[0];
      if line == GeneralHeader then GeneralScan(lines[1..], true, count)
      else if EndsWith(line, "/") && inGeneral then []
      else if inGeneral && line != "" && count < ListLimit then
        [line] + GeneralScan(lines[1..], inGeneral, count + 1)
      else GeneralScan(lines[1..], inGeneral, count)
  }

  /** `check_preset_availability()`: `listing` is the command's output, or
      None when the command failed or could not be started. */
  function CheckPresetAvailability(listing: Option<string>, preset: string): (r: PresetCheck)
    ensures listing.None? ==> r == PresetCheck(false, [])
    ensures listing.Some? ==>
      (r.available <==>
        exists i :: 0 <= i < |Lines(listing.value)| && Lines(listing.value)[i] == preset)
    ensures r.available ==> r.listed == []
    ensures |r.listed| <= ListLimit
  {
    match listing
    case None => PresetCheck(false, [])
    case Some(out) =>
      var lines := Lines(out);
      if preset in lines then PresetCheck(true, [])
      else PresetCheck(false, GeneralScan(lines, false, 0))
  }

  // An independent description of what is listed.

  /** The lines after the first "General/" line, or none. */
  function AfterHeader(lines: seq<string>): (r: seq<string>)
    ensures |r| <= |lines| && r == lines[|lines| - |r|..]
    ensures GeneralHeader !in lines ==> r == []
    ensures GeneralHeader in lines ==>
      |r| < |lines| && lines[|lines| - |r| - 1] == GeneralHeader &&
      GeneralHeader !in lines[..|lines| - |r| - 1]
  {
    if |lines| == 0 then []
    else if lines[0] == GeneralHeader then lines[1..]
    else AfterHeader(lines[1..])
  }

  /** The longest prefix without a section header other than "General/". */
  function UntilNextHeader(lines: seq<string>): (r: seq<string>)
    ensures |r| <= |lines| && r == lines[..|r|]
    ensures forall i :: 0 <= i < |r| ==> r[i] == GeneralHeader || !EndsWith(r[i], "/")
    ensures |r| < |lines| ==> EndsWith(lines[|r|], "/") && lines[|r|] != GeneralHeader
  {
    if |lines| == 0 then []
    else if lines[0] != GeneralHeader && EndsWith(lines[0], "/") then []
    else [lines[0]] + UntilNextHeader(lines[1..])
  }

  /** The lines that name a preset: neither empty nor the section header. */
  function Listable(lines: seq<string>): (r: seq<string>)
    ensures |r| <= |lines|
    ensures forall x :: x in r <==> x in lines && x != "" && x != GeneralHeader
  {
    if |lines| == 0 then []
    else if lines[0] != "" && lines[0] != GeneralHeader then [lines[0]] + Listable(lines[1..])
    else Listable(lines[1..])
  }

  function Take(xs: seq<string>, n: int): (r: seq<string>)
    ensures |r| == if n <= 0 then 0 else if n < |xs| then n else |xs|
    ensures r == xs[..|r|]
  {
    if n <= 0 then [] else if n < |xs| then xs[..n] else xs
  }

  lemma TakeCons(x: string, xs: seq<string>, n: int)
    requires n > 0
    ensures Take([x] + xs, n) == [x] + Take(xs, n - 1)
  {
  }

  lemma ListableCons(x: string, xs: seq<string>)
    ensures Listable([x] + xs) == (if x != "" && x != GeneralHeader then [x] else []) + Listable(xs)
  {
    assert ([x] + xs)[1..] == xs;
  }

  /** Inside the section, the scan lists the first entries before the next
      header, as many as the remaining budget allows. */
  lemma {:induction false} ScanInSection(lines: seq<string>, count: nat)
    requires count <= ListLimit
    ensures GeneralScan(lines, true, count) == Take(Listable(UntilNextHeader(lines)), ListLimit - count)
    decreases |lines|
  {
    if |lines| > 0 {
      var line := lines[0];
      var rest := lines[1..];
      if line != GeneralHeader && EndsWith(line, "/") {
        StopsAtHeader(lines, count);
      } else if line != "" && line != GeneralHeader && count < ListLimit {
        ScanInSection(rest, count + 1);
        ListsEntry(lines, count);
      } else {
        ScanInSection(rest, count);
        SkipsLine(lines, count);
      }
    }
  }

  lemma StopsAtHeader(lines: seq<string>, count: nat)
    requires |lines| > 0 && lines[0] != GeneralHeader && EndsWith(lines[0], "/")
    ensures GeneralScan(lines, true, count) == []
    ensures Listable(UntilNextHeader(lines)) == []
  {
    assert UntilNextHeader(lines) == [];
  }

  lemma ListsEntry(lines: seq<string>, count: nat)
    requires |lines| > 0 && count < ListLimit
    requires lines[0] != "" && lines[0] != GeneralHeader && !EndsWith(lines[0], "/")
    requires GeneralScan(lines[1..], true, count + 1) ==
      Take(Listable(UntilNextHeader(lines[1..])), ListLimit - (count + 1))
    ensures GeneralScan(lines, true, count) == Take(Listable(UntilNextHeader(lines)), ListLimit - count)
  {
    var line := lines[0];
    var rest := lines[1..];
    assert GeneralScan(lines, true, count) == [line] + GeneralScan(rest, true, count + 1);
    assert UntilNextHeader(lines) == [line] + UntilNextHeader(rest);
    ListableCons(line, UntilNextHeader(rest));
    TakeCons(line, Listable(UntilNextHeader(rest)), ListLimit - count);
  }

  lemma SkipsLine(lines: seq<string>, count: nat)
    requires |lines| > 0 && count <= ListLimit
    requires lines[0] == GeneralHeader || !EndsWith(lines[0], "/")
    requires lines[0] == "" || lines[0] == GeneralHeader || count == ListLimit
    requires GeneralScan(lines[1..], true, count) ==
      Take(Listable(UntilNextHeader(lines[1..])), ListLimit - count)
    ensures GeneralScan(lines, true, count) == Take(Listable(UntilNextHeader(lines)), ListLimit - count)
  {
    var line := lines[0];
    var rest := lines[1..];
    assert GeneralScan(lines, true, count) == GeneralScan(rest, true, count);
    assert UntilNextHeader(lines) == [line] + UntilNextHeader(rest);
    ListableCons(line, UntilNextHeader(rest));
  }

  /** Before the section, nothing is listed and no header ends the scan. */
  lemma {:induction false} ScanBeforeSection(lines: seq<string>)
    ensures GeneralScan(lines, false, 0) ==
      (if GeneralHeader in lines then GeneralScan(AfterHeader(lines), true, 0) else [])
    decreases |lines|
  {
    if |lines| > 0 {
      if lines[0] != GeneralHeader {
        ScanBeforeSection(lines[1..]);
        assert GeneralHeader in lines <==> GeneralHeader in lines[1..];
      }
    }
  }

  /** What is listed when the preset is missing: the first ten non-empty
      lines after the first "General/" header and before the next header. */
  lemma ListedEntries(listing: string, preset: string)
    requires preset !in Lines(listing)
    ensures CheckPresetAvailability(Some(listing), preset).listed ==
      Take(Listable(UntilNextHeader(AfterHeader(Lines(listing)))), ListLimit)
  {
    var lines := Lines(listing);
    ScanBeforeSection(lines);
    ScanInSection(AfterHeader(lines), 0);
    if GeneralHeader !in lines {
      assert AfterHeader(lines) == [];
    }
  }
}
