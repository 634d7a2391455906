/** The loop of `encode_video` over the encoder's output lines: progress
    lines are recognised by substring search, the percent and ETA texts
    are cut out at fixed boundaries, and the display is refreshed only
    when the whole part of the percentage rises. Other lines that mention
    an error or a warning go to the debug log. Drawing the progress bar
    is left out; only whether its arithmetic raises is kept, in `Reading`. */
module Progress {
  import opened Wrappers
  import opened Text

  /** What `float(text)` and the arithmetic after it make of a percent
      text: a ValueError (not a number, or "nan", which `int` rejects with
      a ValueError), the whole part truncated toward zero, or a value too
      large to handle. That last case covers "inf", for which `int` raises
      OverflowError. It also covers finite values so large that drawing the
      bar raises: `40 * percent` overflows to infinity, or the bar string
      cannot be built. Neither error is caught by the inner handler. */
  datatype Reading = NotANumber | Finite(whole: int) | TooLarge

  /** Python's number parser, which the model does not reimplement. */
  type FloatReader = string -> Reading

  /** A half-open range of character positions in a line. */
  datatype Span = Span(start: nat, end: nat)

  /** The char-level meaning of `s.find(c, start)`. */
  lemma FindChar(s: string, c: char, start: nat)
    ensures Find(s, [c], start) == -1 || (start <= Find(s, [c], start) < |s| && s[Find(s, [c], start)] == c)
    ensures forall i :: start <= i < |s| && (Find(s, [c], start) == -1 || i < Find(s, [c], start)) ==> s[i] != c
  {
    forall i | 0 <= i < |s|
      ensures Occurs(s, [c], i) <==> s[i] == c
    {
      assert s[i..i + 1] == [s[i]];
    }
  }

  /** The progress pattern: the line holds both "Encoding:" and "%". */
  predicate IsProgressLine(line: string) {
    Contains(line, "Encoding:") && Contains(line, "%")
  }

  /** `percent_start` and `percent_end`: from just after the first comma to
      the first "%" after it. None exactly when no "%" follows any comma. */
  function PercentSpan(line: string): (r: Option<Span>)
    ensures r.Some? ==> 0 < r.value.start <= r.value.end < |line|
    ensures r.Some? ==> line[r.value.start - 1] == ',' && line[r.value.end] == '%'
    ensures r.Some? ==> forall i :: 0 <= i < r.value.start - 1 ==> line[i] != ','
    ensures r.Some? ==> forall i :: r.value.start <= i < r.value.end ==> line[i] != '%'
    ensures r.None? <==>
      forall c, e :: 0 <= c < e < |line| && line[c] == ',' ==> line[e] != '%'
  {
    FindChar(line, ',', 0);
    var percentStart := Find(line, ",", 0) + 1;
    FindChar(line, '%', percentStart);
    var percentEnd := Find(line, "%", percentStart);
    if percentStart > 0 && percentEnd > 0 then Some(Span(percentStart, percentEnd)) else None
  }

  /** The percent text: the stripped slice between the boundaries. */
  function PercentText(line: string, span: Span): string
    requires span.start <= span.end <= |line|
  {
    Strip(line[span.start..span.end])
  }

  /** `eta_start` and `eta_end`: from four characters past the first "ETA"
      to the next ")", provided that ")" lies strictly beyond the start. */
  function EtaSpan(line: string): (r: Option<Span>)
    ensures r.Some? ==> Occurs(line, "ETA", r.value.start - 4)
    ensures r.Some? ==> forall i :: 0 <= i < r.value.start - 4 ==> !Occurs(line, "ETA", i)
    ensures r.Some? ==> r.value.start < r.value.end < |line| && line[r.value.end] == ')'
    ensures r.Some? ==> forall i :: r.value.start <= i < r.value.end ==> line[i] != ')'
    ensures r.None? <==>
      !Contains(line, "ETA") ||
      (forall i :: Find(line, "ETA", 0) + 4 < i < |line| ==> line[i] != ')') ||
      (Find(line, "ETA", 0) + 4 < |line| && line[Find(line, "ETA", 0) + 4] == ')')
  {
    FindFromStart(line, "ETA");
    if Contains(line, "ETA") then
      var etaStart := Find(line, "ETA", 0) + 4;
      FindChar(line, ')', etaStart);
      var etaEnd := Find(line, ")", etaStart);
      if etaEnd > etaStart then Some(Span(etaStart, etaEnd)) else None
    else None
  }

  const Calculating := "calculating..."

  /** The ETA shown beside the bar. */
  function Eta(line: string): (r: string)
    ensures EtaSpan(line).None? ==> r == Calculating
    ensures EtaSpan(line).Some? ==>
      r == Strip(line[EtaSpan(line).value.start..EtaSpan(line).value.end])
  {
    match EtaSpan(line)
    case Some(sp) => Strip(line[sp.start..sp.end])
    case None => Calculating
  }

  /** The char-level form of `s.find(c, start) == k`. */
  lemma FindCharIs(s: string, c: char, start: nat, k: nat)
    requires start <= k < |s| && s[k] == c
    requires forall i :: start <= i < k ==> s[i] != c
    ensures Find(s, [c], start) == k
  {
    FindChar(s, c, start);
  }

  /** The ETA when the first "ETA" is at `k` and the first ')' from `k + 4`
      on is `n` characters further. */
  lemma EtaAt(line: string, k: nat, n: nat)
    requires Occurs(line, "ETA", k) && forall i :: 0 <= i < k ==> !Occurs(line, "ETA", i)
    requires k + 4 + n < |line| && line[k + 4 + n] == ')'
    requires forall j :: k + 4 <= j < k + 4 + n ==> line[j] != ')'
    ensures Eta(line) == if n > 0 then Strip(line[k + 4..k + 4 + n]) else Calculating
  {
    EtaSpanAt(line, k, n);
  }

  lemma EtaSpanAt(line: string, k: nat, n: nat)
    requires Occurs(line, "ETA", k) && forall i :: 0 <= i < k ==> !Occurs(line, "ETA", i)
    requires k + 4 + n < |line| && line[k + 4 + n] == ')'
    requires forall j :: k + 4 <= j < k + 4 + n ==> line[j] != ')'
    ensures EtaSpan(line) == if n > 0 then Some(Span(k + 4, k + 4 + n)) else None
  {
    FindFromStart(line, "ETA");
    FindIs(line, "ETA", 0, k);
    FindCharIs(line, ')', k + 4, k + 4 + n);
  }

  /** "ETA" does not overlap itself, so after a prefix without it, the
      first occurrence is where the appended "ETA" starts. */
  lemma FirstEta(prefix: string, tail: string)
    requires !Contains(prefix, "ETA") && |tail| >= 3 && tail[..3] == "ETA"
    ensures Occurs(prefix + tail, "ETA", |prefix|)
    ensures forall i :: 0 <= i < |prefix| ==> !Occurs(prefix + tail, "ETA", i)
  {
    var line := prefix + tail;
    var k := |prefix|;
    assert line[k..k + 3] == tail[..3];
    forall i | 0 <= i < k
      ensures !Occurs(line, "ETA", i)
    {
      if i + 3 <= k {
        assert line[i..i + 3] == prefix[i..i + 3];
        assert !Occurs(prefix, "ETA", i);
      } else {
        // a straddling occurrence would need the 'E' that starts `tail`
        // to be its 'T' or its 'A'
        assert line[k] == tail[..3][0] == 'E';
        if i == k - 1 {
          assert line[i..i + 3][1] == line[k];
        } else {
          assert line[i..i + 3][2] == line[k];
        }
      }
    }
  }

  /** A line made of a prefix without "ETA", then "ETA", one more
      character, `eta` and ')' shows the stripped `eta` when `eta` is
      non-empty and ')'-free, and "calculating..." when `eta` is empty. */
  lemma EtaOfLine(prefix: string, tail: string, eta: string)
    requires !Contains(prefix, "ETA") && ')' !in eta
    requires |tail| >= 3 && tail[..3] == "ETA"
    requires 4 + |eta| < |tail| && tail[4 + |eta|] == ')' && tail[4..4 + |eta|] == eta
    ensures Eta(prefix + tail) == if |eta| > 0 then Strip(eta) else Calculating
  {
    FirstEta(prefix, tail);
    ShiftedTail(prefix, tail, eta);
    EtaAt(prefix + tail, |prefix|, |eta|);
  }

  /** The facts about `tail` hold, shifted, in `prefix + tail`. */
  lemma ShiftedTail(prefix: string, tail: string, eta: string)
    requires 4 + |eta| < |tail| && tail[4 + |eta|] == ')' && tail[4..4 + |eta|] == eta && ')' !in eta
    ensures var line := prefix + tail;
      var k := |prefix|;
      && k + 4 + |eta| < |line| && line[k + 4 + |eta|] == ')'
      && line[k + 4..k + 4 + |eta|] == eta
      && (forall j :: k + 4 <= j < k + 4 + |eta| ==> line[j] != ')')
  {
    var line := prefix + tail;
    var k := |prefix|;
    assert line[k + 4..k + 4 + |eta|] == tail[4..4 + |eta|];
    assert forall j :: k + 4 <= j < k + 4 + |eta| ==> line[j] == eta[j - k - 4];
  }

  /** The percent span when the first comma is at `k` and the first '%'
      after it at `e`. */
  lemma PercentAt(line: string, k: nat, e: nat)
    requires k < e < |line| && line[k] == ',' && line[e] == '%'
    requires forall j :: 0 <= j < k ==> line[j] != ','
    requires forall j :: k < j < e ==> line[j] != '%'
    ensures PercentSpan(line) == Some(Span(k + 1, e))
  {
    FindCharIs(line, ',', 0, k);
    FindCharIs(line, '%', k + 1, e);
  }

  /** A line made of a prefix holding "Encoding:" and no comma, then a
      comma, `text` without '%', and '%', reads as `float` of the stripped
      `text`. */
  lemma ReadingOfLine(prefix: string, tail: string, text: string, read: FloatReader)
    requires Contains(prefix, "Encoding:") && ',' !in prefix && '%' !in text
    requires 1 + |text| < |tail| && tail[0] == ',' && tail[1 + |text|] == '%' && tail[1..1 + |text|] == text
    ensures LineReading(prefix + tail, read) == Some(read(Strip(text)))
  {
    var line := prefix + tail;
    var k := |prefix|;
    var e := k + 1 + |text|;
    ContainsPrefix(prefix, tail, "Encoding:");
    assert line[e..e + 1] == "%";
    assert Occurs(line, "%", e);
    assert IsProgressLine(line);
    assert forall j :: 0 <= j < k ==> line[j] == prefix[j];
    assert line[k + 1..e] == tail[1..1 + |text|];
    assert forall j :: k < j < e ==> line[j] == text[j - k - 1];
    PercentAt(line, k, e);
  }

  /** What a line contributes to the throttle: the reading of its percent
      text when it is a progress line whose boundaries were found. */
  function LineReading(line: string, read: FloatReader): (r: Option<Reading>)
    ensures r.Some? <==> IsProgressLine(line) && PercentSpan(line).Some?
    ensures r.Some? ==> r.value == read(PercentText(line, PercentSpan(line).value))
  {
    if IsProgressLine(line) then
      match PercentSpan(line)
      case Some(sp) => Some(read(PercentText(line, sp)))
      case None => None
    else None
  }

  /** A display refresh: the whole percentage, its text, and the ETA. */
  datatype Update = Update(whole: int, text: string, eta: string)

  /** The loop state: the whole part of `last_progress`, the refreshes so
      far and the lines sent to the debug log. */
  datatype Monitor = Monitor(lastWhole: int, shown: seq<Update>, logged: seq<string>)

  /** `last_progress = -1` before the first line. */
  const Fresh := Monitor(-1, [], [])

  /** The loop either goes on, or an exception from the percent
      arithmetic escaped it. */
  datatype Scan = Scanning(m: Monitor) | Overflowed

  /** Lines sent to the debug log: not progress lines, and mentioning
      "error" or "warning" in any ASCII case. */
  predicate IsDiagnostic(line: string) {
    !IsProgressLine(line) &&
    (Contains(Lower(line), "error") || Contains(Lower(line), "warning"))
  }

  /** The shown updates rise strictly, start above -1 and end at the
      remembered whole part. */
  predicate Valid(m: Monitor) {
    && m.lastWhole >= -1
    && (forall i :: 0 <= i < |m.shown| ==> 0 <= m.shown[i].whole <= m.lastWhole)
    && (forall i, j :: 0 <= i < j < |m.shown| ==> m.shown[i].whole < m.shown[j].whole)
    && (|m.shown| > 0 ==> m.shown[|m.shown| - 1].whole == m.lastWhole)
  }

  /** One iteration of the loop over the encoder's output. */
  function Feed(m: Monitor, line: string, read: FloatReader): (r: Scan)
    ensures r.Overflowed? <==> LineReading(line, read) == Some(TooLarge)
    ensures r.Scanning? && LineReading(line, read).Some? && LineReading(line, read).value.Finite?
              && LineReading(line, read).value.whole > m.lastWhole ==>
      r.m.lastWhole == LineReading(line, read).value.whole &&
      r.m.shown == m.shown + [Update(r.m.lastWhole, PercentText(line, PercentSpan(line).value), Eta(line))]
    ensures r.Scanning? && !(LineReading(line, read).Some? && LineReading(line, read).value.Finite?
              && LineReading(line, read).value.whole > m.lastWhole) ==>
      r.m.lastWhole == m.lastWhole && r.m.shown == m.shown
    ensures r.Scanning? ==>
      r.m.logged == m.logged + (if IsDiagnostic(line) then [Strip(line)] else [])
  {
    if IsProgressLine(line) then
      match PercentSpan(line)
      case None => Scanning(m)
      case Some(sp) =>
        var text := PercentText(line, sp);
        match read(text)
        case NotANumber => Scanning(m)
        case TooLarge => Overflowed
        case Finite(whole) =>
          if whole > m.lastWhole then
            Scanning(Monitor(whole, m.shown + [Update(whole, text, Eta(line))], m.logged))
          else Scanning(m)
    else if Contains(Lower(line), "error") || Contains(Lower(line), "warning") then
      Scanning(m.(logged := m.logged + [Strip(line)]))
    else Scanning(m)
  }

  /** A refresh only happens for a whole part above the remembered one, so
      the shown updates keep rising. */
  lemma FeedKeepsValid(m: Monitor, line: string, read: FloatReader)
    requires Valid(m)
    ensures Feed(m, line, read).Scanning? ==> Valid(Feed(m, line, read).m)
  {
    var r := Feed(m, line, read);
    if r.Scanning? && r.m.shown != m.shown {
      var u := r.m.shown[|r.m.shown| - 1];
      AppendKeepsValid(m, u, r.m.logged);
      assert r.m == Monitor(u.whole, m.shown + [u], r.m.logged);
    }
  }

  lemma AppendKeepsValid(m: Monitor, u: Update, logged: seq<string>)
    requires Valid(m) && u.whole > m.lastWhole
    ensures Valid(Monitor(u.whole, m.shown + [u], logged))
  {
    var shown := m.shown + [u];
    assert forall i :: 0 <= i < |m.shown| ==> shown[i] == m.shown[i];
  }

  /** The whole loop over the lines read so far, from `Fresh`. */
  function FeedAll(lines: seq<string>, read: FloatReader): (r: Scan)
    ensures r.Scanning? ==> Valid(r.m)
    ensures r.Scanning? ==> |r.m.shown| <= |lines| && |r.m.logged| <= |lines|
  {
    if |lines| == 0 then Scanning(Fresh)
    else match FeedAll(lines[..|lines| - 1], read)
      case Overflowed => Overflowed
      case Scanning(m) =>
        FeedKeepsValid(m, lines[|lines| - 1], read);
        Feed(m, lines[|lines| - 1], read)
  }

  /** The finite whole parts read from the progress lines, in order. */
  function Wholes(lines: seq<string>, read: FloatReader): seq<int> {
    if |lines| == 0 then []
    else Wholes(lines[..|lines| - 1], read) + WholeOf(lines[|lines| - 1], read)
  }

  /** The finite whole part one line reads as, if any. */
  function WholeOf(line: string, read: FloatReader): seq<int> {
    var r := LineReading(line, read);
    if r.Some? && r.value.Finite? then [r.value.whole] else []
  }

  /** What each line contributes, in order. */
  function Readings(lines: seq<string>, read: FloatReader): (r: seq<Option<Reading>>)
    ensures |r| == |lines| && forall i :: 0 <= i < |lines| ==> r[i] == LineReading(lines[i], read)
  {
    seq(|lines|, i requires 0 <= i < |lines| => LineReading(lines[i], read))
  }

  /** Some progress line reads as a value too large to handle. */
  predicate ReadsTooLarge(lines: seq<string>, read: FloatReader) {
    Some(TooLarge) in Readings(lines, read)
  }

  /** The largest of `floor` and the values. */
  function MaxFrom(floor: int, xs: seq<int>): (r: int)
    ensures r >= floor && forall i :: 0 <= i < |xs| ==> r >= xs[i]
    ensures r == floor || exists i :: 0 <= i < |xs| && r == xs[i]
  {
    if |xs| == 0 then floor
    else
      var prev := MaxFrom(floor, xs[..|xs| - 1]);
      var x := xs[|xs| - 1];
      if x > prev then x else prev
  }

  /** The record highs: the values above -1 and above every earlier value. */
  function RecordHighs(xs: seq<int>): seq<int> {
    if |xs| == 0 then []
    else
      var x := xs[|xs| - 1];
      RecordHighs(xs[..|xs| - 1]) + (if x > MaxFrom(-1, xs[..|xs| - 1]) then [x] else [])
  }

  /** The whole parts of the shown updates. */
  function ShownWholes(shown: seq<Update>): (r: seq<int>)
    ensures |r| == |shown| && forall i :: 0 <= i < |shown| ==> r[i] == shown[i].whole
  {
    seq(|shown|, i requires 0 <= i < |shown| => shown[i].whole)
  }

  /** The loop aborts exactly when some progress line reads as a value too
      large to handle; a line that cannot be parsed never stops it. */
  lemma {:induction false} OverflowMeaning(lines: seq<string>, read: FloatReader)
    ensures FeedAll(lines, read).Overflowed? <==> ReadsTooLarge(lines, read)
    decreases |lines|
  {
    if |lines| > 0 {
      var init := lines[..|lines| - 1];
      OverflowMeaning(init, read);
      ReadsTooLargeLast(lines, read);
    }
  }

  /** Splitting off the last line of `ReadsTooLarge`. */
  lemma ReadsTooLargeLast(lines: seq<string>, read: FloatReader)
    requires |lines| > 0
    ensures ReadsTooLarge(lines, read) <==>
      ReadsTooLarge(lines[..|lines| - 1], read) || LineReading(lines[|lines| - 1], read) == Some(TooLarge)
  {
    var init := lines[..|lines| - 1];
    var rs := Readings(lines, read);
    assert Readings(init, read) == rs[..|rs| - 1];
    assert rs == rs[..|rs| - 1] + [rs[|rs| - 1]];
  }

  /** The throttle, stated without the loop: while the loop runs, the
      remembered whole part is the largest one read (or -1), and the display
      was refreshed for exactly the record highs among the readings. */
  lemma ThrottleMeaning(lines: seq<string>, read: FloatReader)
    ensures FeedAll(lines, read).Scanning? ==>
      FeedAll(lines, read).m.lastWhole == MaxFrom(-1, Wholes(lines, read)) &&
      ShownWholes(FeedAll(lines, read).m.shown) == RecordHighs(Wholes(lines, read))
  {
    LastWholeMeaning(lines, read);
    ShownMeaning(lines, read);
  }

  /** The remembered whole part is the largest one read, or -1. */
  lemma {:induction false} LastWholeMeaning(lines: seq<string>, read: FloatReader)
    ensures FeedAll(lines, read).Scanning? ==>
      FeedAll(lines, read).m.lastWhole == MaxFrom(-1, Wholes(lines, read))
    decreases |lines|
  {
    if |lines| > 0 {
      var init := lines[..|lines| - 1];
      LastWholeMeaning(init, read);
      WholesLast(lines, read);
    }
  }

  /** The refreshes are the record highs of the whole parts read. */
  lemma {:induction false} ShownMeaning(lines: seq<string>, read: FloatReader)
    ensures FeedAll(lines, read).Scanning? ==>
      ShownWholes(FeedAll(lines, read).m.shown) == RecordHighs(Wholes(lines, read))
    decreases |lines|
  {
    if |lines| > 0 {
      var init := lines[..|lines| - 1];
      ShownMeaning(init, read);
      LastWholeMeaning(init, read);
      match FeedAll(init, read)
      case Overflowed =>
      case Scanning(m) =>
        ShownStep(m, lines[|lines| - 1], read, Wholes(init, read));
    }
  }

  /** One iteration keeps the refreshes equal to the record highs. */
  lemma ShownStep(m: Monitor, line: string, read: FloatReader, ws: seq<int>)
    requires ShownWholes(m.shown) == RecordHighs(ws) && m.lastWhole == MaxFrom(-1, ws)
    ensures Feed(m, line, read).Scanning? ==>
      ShownWholes(Feed(m, line, read).m.shown) == RecordHighs(ws + WholeOf(line, read))
  {
    var r := Feed(m, line, read);
    var reading := LineReading(line, read);
    if reading.Some? && reading.value.Finite? {
      var x := reading.value.whole;
      RecordHighsSnoc(ws, x);
      if r.Scanning? && x > m.lastWhole {
        assert ShownWholes(r.m.shown) == ShownWholes(m.shown) + [x];
      }
    } else {
      assert ws + WholeOf(line, read) == ws;
    }
  }

  /** Splitting off the last value of `RecordHighs`. */
  lemma RecordHighsSnoc(ws: seq<int>, x: int)
    ensures RecordHighs(ws + [x]) == RecordHighs(ws) + (if x > MaxFrom(-1, ws) then [x] else [])
  {
    assert (ws + [x])[..|ws|] == ws;
  }

  /** Splitting off the last line of `Wholes`. */
  lemma WholesLast(lines: seq<string>, read: FloatReader)
    requires |lines| > 0
    ensures var ws := Wholes(lines, read);
      var init := Wholes(lines[..|lines| - 1], read);
      var r := LineReading(lines[|lines| - 1], read);
      (r.Some? && r.value.Finite? ==> ws == init + [r.value.whole] && ws[..|ws| - 1] == init) &&
      (!(r.Some? && r.value.Finite?) ==> ws == init)
  {
  }

  /** A HandBrake progress line of the usual shape, without an ETA. */
  function TaskLine(text: string): string {
    "Encoding: task 1 of 1, " + text + " %"
  }

  /** A percent text that the boundaries and `strip` leave intact. */
  predicate CleanText(text: string) {
    && |text| > 0 && !IsSpace(text[0]) && !IsSpace(text[|text| - 1])
    && forall i :: 0 <= i < |text| ==> text[i] != '%' && text[i] != ','
  }

  /** The percent text of a task line is the text it was built from. */
  lemma TaskLineText(text: string)
    requires CleanText(text)
    ensures IsProgressLine(TaskLine(text))
    ensures PercentSpan(TaskLine(text)) == Some(Span(22, 23 + |text| + 1))
    ensures PercentText(TaskLine(text), PercentSpan(TaskLine(text)).value) == text
  {
    var line := TaskLine(text);
    assert Occurs(line, "Encoding:", 0);
    assert line[23 + |text| + 1] == '%';
    assert line[23 + |text| + 1..23 + |text| + 2] == "%";
    assert Occurs(line, "%", 23 + |text| + 1);
    assert line[21] == ',';
    var sp := PercentSpan(line).value;
    assert sp.start == 22;
    assert line[22..23 + |text| + 1] == " " + text + " ";
    assert sp.end == 23 + |text| + 1;
    var slice := " " + text + " ";
    assert LeadingSpace(slice) == 1;
    assert slice[1..1 + |text|] == text;
  }

  /** Two progress lines whose percentages share a non-negative whole part
      refresh the display once, not twice. */
  lemma SameWholeRefreshesOnce(t1: string, t2: string, read: FloatReader, whole: nat)
    requires CleanText(t1) && CleanText(t2)
    requires read(t1) == Finite(whole) && read(t2) == Finite(whole)
    ensures FeedAll([TaskLine(t1), TaskLine(t2)], read).Scanning?
    ensures |FeedAll([TaskLine(t1), TaskLine(t2)], read).m.shown| == 1
  {
    var l1 := TaskLine(t1);
    var l2 := TaskLine(t2);
    TaskLineText(t1);
    TaskLineText(t2);
    assert LineReading(l1, read) == Some(Finite(whole));
    assert LineReading(l2, read) == Some(Finite(whole));
    var lines := [l1, l2];
    assert lines[..1] == [l1];
    assert [l1][..0] == [];
    assert FeedAll([l1], read) == Feed(Fresh, l1, read);
  }

  /** "10.0 %" followed by "10.4 %" refreshes the display once. */
  lemma TenThenTenPointFour(read: FloatReader)
    requires read("10.0") == Finite(10) && read("10.4") == Finite(10)
    ensures FeedAll([TaskLine("10.0"), TaskLine("10.4")], read).Scanning?
    ensures |FeedAll([TaskLine("10.0"), TaskLine("10.4")], read).m.shown| == 1
  {
    SameWholeRefreshesOnce("10.0", "10.4", read, 10);
  }
}
