/**
 * Reading the CDDB metadata that cdda2wav leaves in `audio.cddb`: the line
 * scan that fills `disc_info` and `songs`, the artist/album split of the disc
 * title, and the empty default used when the file is missing.
 */
module Cddb {
  import opened Wrappers
  import opened Text

  /**
   * The `disc_info` dictionary. `None` is a key that was never assigned, so
   * that `disc_info.get(key)` returns `None`.
   */
  datatype Disc = Disc(title: Option<string>, year: Option<string>, genre: Option<string>,
                       artist: Option<string>, album: Option<string>)

  /** The keys of `disc_info`, in the order the sanitising loop visits them. */
  datatype Field = DiscTitle | Year | Genre | Artist | Album

  /** `disc_info` and `songs` (track number to track title) together. */
  datatype Metadata = Metadata(disc: Disc, songs: map<nat, string>)

  /** The two inputs on which the metadata code raises. */
  datatype ParseError =
    | EmptyTrackNumber(line: string)  // `int('')` on a `TTITLE=` line without digits
    | NoDiscTitle                     // `re.match` given `None` when no line held `DTITLE=`

  const NoDisc := Disc(None, None, None, None, None)

  function Get(d: Disc, f: Field): Option<string> {
    match f
    case DiscTitle => d.title
    case Year => d.year
    case Genre => d.genre
    case Artist => d.artist
    case Album => d.album
  }

  function Set(d: Disc, f: Field, v: Option<string>): (r: Disc)
    ensures Get(r, f) == v
    ensures forall g :: g != f ==> Get(r, g) == Get(d, g)
  {
    match f
    case DiscTitle => d.(title := v)
    case Year => d.(year := v)
    case Genre => d.(genre := v)
    case Artist => d.(artist := v)
    case Album => d.(album := v)
  }

  /** `not disc_info.get(key)`: the key is missing or holds the empty string. */
  predicate Unset(v: Option<string>) {
    v.None? || v.value == ""
  }

  /** The fields the line scan fills, in the order it tries them. */
  predicate Scanned(f: Field) {
    f.DiscTitle? || f.Year? || f.Genre?
  }

  function Key(f: Field): string
    requires Scanned(f)
  {
    match f
    case DiscTitle => "DTITLE="
    case Year => "DYEAR="
    case Genre => "DGENRE="
  }

  /**
   * `re.findall(key + '(.*)', line)[0]`: the text after the leftmost
   * occurrence of `key`, up to the first newline; `None` where findall finds
   * nothing and indexing it raises IndexError.
   */
  function Capture(line: string, key: string): (r: Option<string>)
    ensures r.Some? <==> Contains(line, key)
    ensures r.Some? ==> '\n' !in r.value
  {
    match Find(line, key)
    case None => None
    case Some(i) => Some(TakeLine(line[i + |key|..]))
  }

  /**
   * The captured value is what follows the leftmost `key` in the line, up to
   * the newline that ends it or the end of the line.
   */
  lemma CaptureIsRestOfLine(line: string, key: string)
    requires Contains(line, key)
    ensures exists i: nat ::
      && OccursAt(line, key, i)
      && (forall j: nat :: j < i ==> !OccursAt(line, key, j))
      && var v := Capture(line, key).value;
         && OccursAt(line, v, i + |key|)
         && (i + |key| + |v| == |line| || line[i + |key| + |v|] == '\n')
  {
    var i := Find(line, key).value;
    var v := TakeLine(line[i + |key|..]);
    assert line[i + |key|..][..|v|] == line[i + |key|..i + |key| + |v|];
  }

  /** The two groups of a `TTITLE(\d*)=(.*)` match. */
  datatype TrackLine = TrackLine(digits: string, name: string)

  /** `TTITLE(\d*)=` matches at index `p`: the marker, the longest digit run, then `=`. */
  predicate TrackAt(line: string, p: nat) {
    && OccursAt(line, "TTITLE", p)
    && var q := p + 6 + DigitRun(line[p + 6..]);
       q < |line| && line[q] == '='
  }

  /** The two groups when `TTITLE(\d*)=` matches at index `k`. */
  function GroupsAt(line: string, k: nat): (r: TrackLine)
    requires TrackAt(line, k)
    ensures AllDigits(r.digits) && '\n' !in r.name
  {
    var q := k + 6 + DigitRun(line[k + 6..]);
    assert line[k + 6..q] == line[k + 6..][..q - (k + 6)];
    TrackLine(line[k + 6..q], TakeLine(line[q + 1..]))
  }

  function TrackMatchFrom(line: string, p: nat): (r: Option<TrackLine>)
    requires p <= |line|
    ensures r.Some? <==> exists k: nat :: p <= k && TrackAt(line, k)
    ensures r.Some? ==> AllDigits(r.value.digits) && '\n' !in r.value.name
    decreases |line| - p
  {
    if TrackAt(line, p) then Some(GroupsAt(line, p))
    else if p == |line| then None
    else
      var r := TrackMatchFrom(line, p + 1);
      assert forall k: nat :: p <= k && TrackAt(line, k) ==> p + 1 <= k;
      r
  }

  /** `re.findall(r'TTITLE(\d*)=(.*)', line)[0]`, or `None` where it raises IndexError. */
  function TrackMatch(line: string): (r: Option<TrackLine>)
    ensures r.Some? <==> exists k: nat :: TrackAt(line, k)
    ensures r.Some? ==> AllDigits(r.value.digits) && '\n' !in r.value.name
  {
    TrackMatchFrom(line, 0)
  }

  /** The search from `p` stops at the first index at which `TTITLE(\d*)=` matches. */
  lemma {:induction false} TrackMatchFromLeftmost(line: string, p: nat, k: nat)
    requires p <= k && TrackAt(line, k)
    requires forall j: nat :: p <= j < k ==> !TrackAt(line, j)
    ensures TrackMatchFrom(line, p) == Some(GroupsAt(line, k))
    decreases k - p
  {
    if p < k {
      assert p < |line| && !TrackAt(line, p);
      TrackMatchFromLeftmost(line, p + 1, k);
    }
  }

  /**
   * The two groups of the match: at the leftmost `TTITLE` followed by digits
   * and `=`, the first group is those digits and the second is the rest of
   * the line after the `=`, up to the newline.
   */
  lemma {:induction false} GroupsAtIs(line: string, k: nat)
    requires TrackAt(line, k)
    ensures var q := k + 6 + DigitRun(line[k + 6..]);
      GroupsAt(line, k) == TrackLine(line[k + 6..q], TakeLine(line[q + 1..]))
  {
  }

  lemma {:induction false} TrackMatchGroups(line: string, k: nat)
    requires TrackAt(line, k)
    requires forall j: nat :: j < k ==> !TrackAt(line, j)
    ensures var q := k + 6 + DigitRun(line[k + 6..]);
      TrackMatch(line) == Some(TrackLine(line[k + 6..q], TakeLine(line[q + 1..])))
  {
    TrackMatchFromLeftmost(line, 0, k);
    GroupsAtIs(line, k);
  }

  lemma {:induction false} DigitRunOfDigits(d: string, t: string)
    requires AllDigits(d) && (t == [] || !IsDigit(t[0]))
    ensures DigitRun(d + t) == |d|
  {
    if d != [] {
      assert (d + t)[1..] == d[1..] + t;
      DigitRunOfDigits(d[1..], t);
    } else {
      assert d + t == t;
    }
  }

  /** `(.*)` on a newline-free text, followed by the end of the line or its newline, takes that text. */
  lemma {:induction false} TakeLineToEol(t: string, eol: string)
    requires '\n' !in t && (eol == "" || eol == "\n")
    ensures TakeLine(t + eol) == t
  {
    if t != [] {
      assert (t + eol)[1..] == t[1..] + eol;
      TakeLineToEol(t[1..], eol);
    } else {
      assert t + eol == eol;
    }
  }

  /** In `TTITLE<digits>=<name>`, the pattern matches at the start and the digit run is `digits`. */
  lemma {:induction false} TrackLineShape(digits: string, name: string)
    requires AllDigits(digits)
    ensures var line := "TTITLE" + digits + "=" + name;
      && TrackAt(line, 0) && DigitRun(line[6..]) == |digits|
      && line[6..6 + |digits|] == digits && line[6 + |digits| + 1..] == name
  {
    var rest := "=" + name;
    var line := "TTITLE" + (digits + rest);
    assert line == "TTITLE" + digits + "=" + name;
    assert line[6..] == digits + rest;
    DigitRunOfDigits(digits, rest);
    assert line[..6] == "TTITLE";
    assert line[6 + |digits|] == rest[0];
  }

  /**
   * A line `TTITLE<digits>=<name>`, as the file yields it with or without its
   * newline `eol`, yields exactly `digits` and `name`.
   */
  lemma {:induction false} TrackMatchOfTrackLine(digits: string, name: string, eol: string)
    requires AllDigits(digits) && '\n' !in name && (eol == "" || eol == "\n")
    ensures TrackMatch("TTITLE" + digits + "=" + name + eol) == Some(TrackLine(digits, name))
  {
    var line := "TTITLE" + digits + "=" + (name + eol);
    assert line == "TTITLE" + digits + "=" + name + eol;
    TrackLineShape(digits, name + eol);
    TrackMatchGroups(line, 0);
    TakeLineToEol(name, eol);
  }



  /** The disc step for field `f` fires on `line`: the field is unset and `key=` is found. */
  predicate Takes(d: Disc, line: string, f: Field)
    requires Scanned(f)
  {
    Unset(Get(d, f)) && Contains(line, Key(f))
  }

  /**
   * One turn of the scan loop: the three disc steps in order, each ending the
   * turn when it fires, then the track step, which records title `name` for
   * 1-based track `int(digits) + 1`.
   */
  function ScanLine(m: Metadata, line: string): Result<Metadata, ParseError> {
    if Takes(m.disc, line, DiscTitle) then
      Ok(m.(disc := Set(m.disc, DiscTitle, Capture(line, Key(DiscTitle)))))
    else if Takes(m.disc, line, Year) then
      Ok(m.(disc := Set(m.disc, Year, Capture(line, Key(Year)))))
    else if Takes(m.disc, line, Genre) then
      Ok(m.(disc := Set(m.disc, Genre, Capture(line, Key(Genre)))))
    else
      match TrackMatch(line)
      case None => Ok(m)
      case Some(t) =>
        if t.digits == [] then Err(EmptyTrackNumber(line))
        else Ok(m.(songs := m.songs[DecimalValue(t.digits) + 1 := t.name]))
  }

  /** The scan of all `lines`, from empty dictionaries; the first raise ends it. */
  function Scan(lines: seq<string>): Result<Metadata, ParseError>
    decreases |lines|
  {
    if lines == [] then Ok(Metadata(NoDisc, map[]))
    else
      match Scan(lines[..|lines| - 1])
      case Err(e) => Err(e)
      case Ok(m) => ScanLine(m, lines[|lines| - 1])
  }

  lemma {:induction false} ScanErrorSticks(lines: seq<string>, i: nat)
    requires i <= |lines| && Scan(lines[..i]).Err?
    ensures Scan(lines) == Scan(lines[..i])
    decreases |lines| - i
  {
    if i < |lines| {
      assert lines[..i + 1][..i] == lines[..i];
      ScanErrorSticks(lines, i + 1);
    } else {
      assert lines[..i] == lines;
    }
  }

  lemma ScanStep(lines: seq<string>, i: nat, m: Metadata)
    requires i < |lines| && Scan(lines[..i]) == Ok(m)
    ensures Scan(lines[..i + 1]) == ScanLine(m, lines[i])
  {
    assert lines[..i + 1][..i] == lines[..i];
  }

  /**
   * Lines 57-81: the body of the scan loop for one line, trying the three
   * disc keys and then the track pattern, with `continue` after a hit.
   */
  method ScanOneLine(disc: Disc, songs: map<nat, string>, line: string) returns (r: Result<Metadata, ParseError>)
    ensures r == ScanLine(Metadata(disc, songs), line)
  {
    var m := Metadata(disc, songs);
    if Takes(disc, line, DiscTitle) {
      return Ok(m.(disc := Set(disc, DiscTitle, Capture(line, Key(DiscTitle)))));
    }
    if Takes(disc, line, Year) {
      return Ok(m.(disc := Set(disc, Year, Capture(line, Key(Year)))));
    }
    if Takes(disc, line, Genre) {
      return Ok(m.(disc := Set(disc, Genre, Capture(line, Key(Genre)))));
    }
    var track := TrackMatch(line);
    if track.None? {
      return Ok(m);
    }
    if track.value.digits == [] {
      return Err(EmptyTrackNumber(line));
    }
    return Ok(m.(songs := songs[DecimalValue(track.value.digits) + 1 := track.value.name]));
  }

  /**
   * Lines 50-81 of the script: the loop over the lines of `audio.cddb`,
   * updating `disc_info` and `songs` in place.
   */
  method ScanCddb(lines: seq<string>) returns (r: Result<Metadata, ParseError>)
    ensures r == Scan(lines)
  {
    var disc := NoDisc;
    var songs: map<nat, string> := map[];
    var i := 0;
    while i < |lines|
      invariant i <= |lines|
      invariant Scan(lines[..i]) == Ok(Metadata(disc, songs))
    {
      ScanStep(lines, i, Metadata(disc, songs));
      var next := ScanOneLine(disc, songs, lines[i]);
      if next.Err? {
        r := next;
        ScanErrorSticks(lines, i + 1);
        return;
      }
      disc, songs := next.value.disc, next.value.songs;
      i := i + 1;
    }
    assert lines[..i] == lines;
    r := Ok(Metadata(disc, songs));
  }

  // ----- What one line does -----

  /** A line in which no pattern matches leaves both dictionaries as they were. */
  lemma UnmatchedLineChangesNothing(m: Metadata, line: string)
    requires !Contains(line, "DTITLE=") && !Contains(line, "DYEAR=") && !Contains(line, "DGENRE=")
    requires forall k: nat :: !TrackAt(line, k)
    ensures ScanLine(m, line) == Ok(m)
  {
  }

  /**
   * A `TTITLEn=rest` line that no disc step takes records `rest` for track
   * n + 1, overwriting an earlier title for it, and changes nothing else.
   */
  lemma TrackLineSetsOneTitle(m: Metadata, line: string, digits: string, name: string)
    requires !Takes(m.disc, line, DiscTitle) && !Takes(m.disc, line, Year) && !Takes(m.disc, line, Genre)
    requires TrackMatch(line) == Some(TrackLine(digits, name)) && digits != []
    ensures ScanLine(m, line).Ok?
    ensures ScanLine(m, line).value.disc == m.disc
    ensures ScanLine(m, line).value.songs.Keys == m.songs.Keys + {DecimalValue(digits) + 1}
    ensures ScanLine(m, line).value.songs[DecimalValue(digits) + 1] == name
    ensures forall k :: k in m.songs && k != DecimalValue(digits) + 1 ==>
      ScanLine(m, line).value.songs[k] == m.songs[k]
  {
  }

  /** One turn on a line whose `TTITLE` match has digits, taken by no disc step. */
  lemma ScanLineOnTrack(m: Metadata, line: string, digits: string, name: string)
    requires TrackMatch(line) == Some(TrackLine(digits, name)) && digits != []
    requires !Takes(m.disc, line, DiscTitle) && !Takes(m.disc, line, Year) && !Takes(m.disc, line, Genre)
    ensures ScanLine(m, line) == Ok(Metadata(m.disc, m.songs[DecimalValue(digits) + 1 := name]))
  {
  }

  /**
   * Stated on the line's own text: `TTITLE<digits>=<name>`, with or without
   * its newline, with at least one digit, taken by no disc step, sets the title of track `int(digits) + 1`
   * to `name` and changes nothing else.
   */
  lemma {:induction false} TrackTextSetsTitle(m: Metadata, line: string, digits: string, name: string, eol: string)
    requires line == "TTITLE" + digits + "=" + name + eol
    requires AllDigits(digits) && digits != [] && '\n' !in name && (eol == "" || eol == "\n")
    requires !Takes(m.disc, line, DiscTitle) && !Takes(m.disc, line, Year) && !Takes(m.disc, line, Genre)
    ensures ScanLine(m, line) == Ok(Metadata(m.disc, m.songs[DecimalValue(digits) + 1 := name]))
  {
    TrackMatchOfTrackLine(digits, name, eol);
    ScanLineOnTrack(m, line, digits, name);
  }

  /** A line taken by a disc step is not also read as a track: `songs` is untouched. */
  lemma DiscLineIsNotATrack(m: Metadata, line: string, f: Field)
    requires Scanned(f) && Takes(m.disc, line, f)
    ensures ScanLine(m, line).Ok?
    ensures ScanLine(m, line).value.songs == m.songs
  {
  }

  /** `TTITLE=` with no digits is the only line that raises. */
  lemma {:induction false} ScanFailsOnlyOnBareTrack(lines: seq<string>)
    requires Scan(lines).Err?
    ensures exists j, name :: 0 <= j < |lines| && TrackMatch(lines[j]) == Some(TrackLine([], name))
    ensures Scan(lines).error.EmptyTrackNumber?
  {
    var prefix := lines[..|lines| - 1];
    if Scan(prefix).Err? {
      ScanFailsOnlyOnBareTrack(prefix);
      var j, name :| 0 <= j < |prefix| && TrackMatch(prefix[j]) == Some(TrackLine([], name));
      assert prefix[j] == lines[j];
    } else {
      var line := lines[|lines| - 1];
      assert TrackMatch(line) == Some(TrackLine([], TrackMatch(line).value.name));
    }
  }

  // ----- The disc fields: the first non-empty value wins -----

  /** The captured values of `key=` over `lines`, in line order. */
  function Captures(lines: seq<string>, key: string): (r: seq<string>)
    ensures |r| <= |lines|
    decreases |lines|
  {
    if lines == [] then []
    else
      var last := lines[|lines| - 1];
      Captures(lines[..|lines| - 1], key)
        + (if Contains(last, key) then [Capture(last, key).value] else [])
  }

  /** The first non-empty value of `vs`, read from the front. */
  function FirstNonEmpty(vs: seq<string>): (r: Option<string>)
    ensures r.Some? ==> r.value != "" && r.value in vs
    ensures r.None? ==> forall i :: 0 <= i < |vs| ==> vs[i] == ""
    ensures r.Some? ==> exists i :: 0 <= i < |vs| && vs[i] == r.value && forall j :: 0 <= j < i ==> vs[j] == ""
  {
    if vs == [] then None
    else if vs[0] != "" then Some(vs[0])
    else
      var r := FirstNonEmpty(vs[1..]);
      if r.Some? then
        var i :| 0 <= i < |vs| - 1 && vs[1..][i] == r.value && forall j :: 0 <= j < i ==> vs[1..][j] == "";
        assert vs[i + 1] == r.value && forall j :: 0 <= j < i + 1 ==> vs[j] == "";
        r
      else r
  }

  /**
   * Where a disc field ends up after the values `vs` were seen for it: the
   * first non-empty one; the empty string if all were empty; unset if none.
   */
  function Settled(vs: seq<string>): Option<string> {
    if vs == [] then None
    else if FirstNonEmpty(vs).Some? then FirstNonEmpty(vs)
    else Some("")
  }

  lemma {:induction false} FirstNonEmptySnoc(vs: seq<string>, v: string)
    ensures FirstNonEmpty(vs + [v]) ==
      if FirstNonEmpty(vs).Some? then FirstNonEmpty(vs)
      else if v != "" then Some(v) else None
  {
    if vs != [] {
      assert (vs + [v])[1..] == vs[1..] + [v];
      FirstNonEmptySnoc(vs[1..], v);
    }
  }

  /** Seeing one more value changes a field only while it is unset or empty. */
  lemma SettledSnoc(vs: seq<string>, v: string)
    ensures Settled(vs + [v]) == if Unset(Settled(vs)) then Some(v) else Settled(vs)
  {
    FirstNonEmptySnoc(vs, v);
  }

  /**
   * A line holding the key of field `f` holds the key of no field the scan
   * tries before `f`, so no earlier disc step can take it.
   */
  predicate KeyAlone(line: string, f: Field)
    requires Scanned(f)
  {
    Contains(line, Key(f)) ==>
      && (f != DiscTitle ==> !Contains(line, Key(DiscTitle)))
      && (f == Genre ==> !Contains(line, Key(Year)))
  }

  /**
   * The disc step for `f` is the one that takes the line: it fires, and no
   * step tried before it (title, then year, then genre) fired first.
   */
  predicate StepTakes(d: Disc, line: string, f: Field)
    requires Scanned(f)
  {
    && Takes(d, line, f)
    && (f != DiscTitle ==> !Takes(d, line, DiscTitle))
    && (f == Genre ==> !Takes(d, line, Year))
  }

  /**
   * What one turn does to a scanned field, on any line: the field becomes the
   * capture when its own step takes the line, and is otherwise left as it was,
   * also when an earlier step took the line and ended the turn.
   */
  lemma ScanLineField(m: Metadata, line: string, f: Field)
    requires Scanned(f) && ScanLine(m, line).Ok?
    ensures Get(ScanLine(m, line).value.disc, f) ==
      if StepTakes(m.disc, line, f) then Capture(line, Key(f)) else Get(m.disc, f)
  {
  }

  /**
   * After the scan, each disc field holds the first non-empty value seen for
   * its key, or the empty string when only empty values were seen, or stays
   * unset when its key never appears. For the title this holds of every
   * input; for the year and the genre, of inputs whose lines do not also
   * carry an earlier key.
   */
  lemma {:induction false} DiscFieldFirstNonEmptyWins(lines: seq<string>, f: Field)
    requires Scanned(f)
    requires forall j :: 0 <= j < |lines| ==> KeyAlone(lines[j], f)
    requires Scan(lines).Ok?
    ensures Get(Scan(lines).value.disc, f) == Settled(Captures(lines, Key(f)))
  {
    if lines != [] {
      var prefix, line := lines[..|lines| - 1], lines[|lines| - 1];
      if Scan(prefix).Err? {
        assert false;
      }
      assert forall j :: 0 <= j < |prefix| ==> prefix[j] == lines[j];
      DiscFieldFirstNonEmptyWins(prefix, f);
      var m := Scan(prefix).value;
      assert Scan(lines) == ScanLine(m, line);
      ScanLineField(m, line, f);
      var vs := Captures(prefix, Key(f));
      if Contains(line, Key(f)) {
        assert Captures(lines, Key(f)) == vs + [Capture(line, Key(f)).value];
        SettledSnoc(vs, Capture(line, Key(f)).value);
      } else {
        assert Captures(lines, Key(f)) == vs;
      }
    }
  }

  /**
   * A line that sets the title also holding `DYEAR=` does not set the year:
   * the title step takes it and `continue` skips the rest, so the year is
   * whatever the next `DYEAR=` line gives.
   */
  lemma TitleLineHidesYear(l1: string, l2: string)
    requires OccursAt(l1, "DTITLE=", 0) && |l1| > 7 && l1[7] != '\n'
    requires OccursAt(l2, "DYEAR=", 0)
    ensures Scan([l1, l2]).Ok?
    ensures Scan([l1, l2]).value.disc.year == Capture(l2, "DYEAR=")
  {
    var m0 := Metadata(NoDisc, map[]);
    assert Scan([l1]) == ScanLine(m0, l1) by {
      assert [l1][..0] == [];
    }
    assert Find(l1, "DTITLE=") == Some(0);
    assert TakeLine(l1[7..]) != [];
    assert Takes(m0.disc, l1, DiscTitle);
    var m1 := Scan([l1]).value;
    assert !Unset(m1.disc.title) && m1.disc.year.None?;
    assert Scan([l1, l2]) == ScanLine(m1, l2) by {
      assert [l1, l2][..1] == [l1];
    }
    assert Contains(l2, "DYEAR=");
    ScanLineField(m1, l2, Year);
  }

  /** The facts about `DTITLE=a DYEAR=1999` that the example below needs. */
  lemma TitleLineFacts(l1: string)
    requires l1 == "DTITLE=a DYEAR=1999"
    ensures OccursAt(l1, "DTITLE=", 0) && |l1| > 7 && l1[7] != '\n'
    ensures Contains(l1, "DYEAR=")
  {
    assert l1[0..7] == "DTITLE=";
    assert l1[9..15] == "DYEAR=";
    assert OccursAt(l1, "DYEAR=", 9);
    ContainsIff(l1, "DYEAR=");
  }

  /** The facts about `DYEAR=2000` that the example below needs. */
  lemma YearLineFacts(l2: string)
    requires l2 == "DYEAR=2000"
    ensures OccursAt(l2, "DYEAR=", 0) && Capture(l2, "DYEAR=") == Some("2000")
  {
    assert l2[0..6] == "DYEAR=";
    assert Find(l2, "DYEAR=") == Some(0);
    assert l2[6..] == "2000" + "";
    TakeLineToEol("2000", "");
  }

  /** In the lines `DTITLE=a DYEAR=1999` and `DYEAR=2000`, the year becomes `2000`. */
  lemma TwoKeyLineExample(l1: string, l2: string)
    requires l1 == "DTITLE=a DYEAR=1999" && l2 == "DYEAR=2000"
    ensures Contains(l1, "DYEAR=")
    ensures Scan([l1, l2]).Ok? && Scan([l1, l2]).value.disc.year == Some("2000")
  {
    TitleLineFacts(l1);
    YearLineFacts(l2);
    TitleLineHidesYear(l1, l2);
  }

  /** The title stays unset exactly when no line holds `DTITLE=`. */
  lemma TitleUnsetIffNoTitleLine(lines: seq<string>)
    requires Scan(lines).Ok?
    ensures Scan(lines).value.disc.title.None? <==>
      forall j :: 0 <= j < |lines| ==> !Contains(lines[j], "DTITLE=")
  {
    DiscFieldFirstNonEmptyWins(lines, DiscTitle);
    CapturesEmpty(lines, "DTITLE=");
  }

  /** A scanned field whose key appears on no line is never assigned. */
  lemma FieldUnsetWithoutKey(lines: seq<string>, f: Field)
    requires Scanned(f) && Scan(lines).Ok?
    requires forall j :: 0 <= j < |lines| ==> !Contains(lines[j], Key(f))
    ensures Get(Scan(lines).value.disc, f).None?
  {
    DiscFieldFirstNonEmptyWins(lines, f);
    CapturesEmpty(lines, Key(f));
  }

  lemma {:induction false} CapturesEmpty(lines: seq<string>, key: string)
    ensures Captures(lines, key) == [] <==> forall j :: 0 <= j < |lines| ==> !Contains(lines[j], key)
  {
    if lines != [] {
      var prefix := lines[..|lines| - 1];
      CapturesEmpty(prefix, key);
      assert forall j :: 0 <= j < |prefix| ==> prefix[j] == lines[j];
    }
  }

  /** One turn never changes a scanned field that holds a non-empty value. */
  lemma ScanLineKeepsSetField(m: Metadata, line: string, f: Field)
    requires Scanned(f) && !Unset(Get(m.disc, f)) && ScanLine(m, line).Ok?
    ensures Get(ScanLine(m, line).value.disc, f) == Get(m.disc, f)
  {
  }

  /** A field holding a non-empty value keeps it for the rest of the scan. */
  lemma {:induction false} SetFieldIsKept(lines: seq<string>, i: nat, f: Field)
    requires Scanned(f) && i <= |lines|
    requires Scan(lines[..i]).Ok? && !Unset(Get(Scan(lines[..i]).value.disc, f))
    requires Scan(lines).Ok?
    ensures Get(Scan(lines).value.disc, f) == Get(Scan(lines[..i]).value.disc, f)
    decreases |lines| - i
  {
    if i == |lines| {
      assert lines[..i] == lines;
    } else {
      var m := Scan(lines[..i]).value;
      ScanStep(lines, i, m);
      if Scan(lines[..i + 1]).Err? {
        ScanErrorSticks(lines, i + 1);
        assert false;
      }
      ScanLineKeepsSetField(m, lines[i], f);
      SetFieldIsKept(lines, i + 1, f);
    }
  }

  // ----- The track titles: the last line for an index wins -----

  /** No two of the four patterns are present in one line. */
  predicate PlainLine(line: string) {
    var t, y, g := Contains(line, "DTITLE="), Contains(line, "DYEAR="), Contains(line, "DGENRE=");
    var k := TrackMatch(line).Some?;
    && (t ==> !y && !g && !k)
    && (y ==> !g && !k)
    && (g ==> !k)
  }

  /** Every line of `lines` carries at most one pattern. */
  predicate AllPlain(lines: seq<string>)
    decreases |lines|
  {
    lines == [] || (AllPlain(lines[..|lines| - 1]) && PlainLine(lines[|lines| - 1]))
  }

  /** The title given by the last `TTITLE` line that names track `n` (index n - 1). */
  function LastTitleFor(lines: seq<string>, n: nat): Option<string>
    decreases |lines|
  {
    if lines == [] then None
    else
      var t := TrackMatch(lines[|lines| - 1]);
      if t.Some? && t.value.digits != [] && DecimalValue(t.value.digits) + 1 == n then Some(t.value.name)
      else LastTitleFor(lines[..|lines| - 1], n)
  }

  /** What one turn of the scan does to `songs` when the line carries at most one pattern. */
  lemma ScanLineSongs(m: Metadata, line: string)
    requires PlainLine(line) && ScanLine(m, line).Ok?
    ensures var t := TrackMatch(line);
      ScanLine(m, line).value.songs ==
        if t.Some? then m.songs[DecimalValue(t.value.digits) + 1 := t.value.name] else m.songs
  {
  }

  /**
   * When each line carries at most one pattern, `songs` holds a track exactly
   * when some `TTITLE` line names it, with the title of the last such line.
   */
  lemma {:induction false} SongsHoldLastTitles(lines: seq<string>, n: nat)
    requires AllPlain(lines) && Scan(lines).Ok?
    ensures n in Scan(lines).value.songs <==> LastTitleFor(lines, n).Some?
    ensures n in Scan(lines).value.songs ==> Scan(lines).value.songs[n] == LastTitleFor(lines, n).value
  {
    if lines != [] {
      var prefix, line := lines[..|lines| - 1], lines[|lines| - 1];
      if Scan(prefix).Err? {
        assert false;
      }
      SongsHoldLastTitles(prefix, n);
      var m := Scan(prefix).value;
      assert Scan(lines) == ScanLine(m, line);
      ScanLineSongs(m, line);
      var t := TrackMatch(line);
      if t.Some? {
        assert t.value.digits != [];
      }
    }
  }

  /** A `TTITLE=` line with no digits, on which `int('')` raises. */
  predicate BareTrack(line: string) {
    TrackMatch(line).Some? && TrackMatch(line).value.digits == []
  }

  /** A line with at most one pattern raises exactly when it is a bare `TTITLE=`. */
  lemma ScanLinePlainFails(m: Metadata, line: string)
    requires PlainLine(line)
    ensures ScanLine(m, line).Err? <==> BareTrack(line)
  {
  }

  /** Some line of `lines` is a bare `TTITLE=`. */
  predicate HasBareTrack(lines: seq<string>)
    decreases |lines|
  {
    lines != [] && (HasBareTrack(lines[..|lines| - 1]) || BareTrack(lines[|lines| - 1]))
  }

  /** When each line carries at most one pattern, the scan raises exactly when a line is a bare `TTITLE=`. */
  lemma {:induction false} PlainScanFailsIffBareTrack(lines: seq<string>)
    requires AllPlain(lines)
    ensures Scan(lines).Err? <==> HasBareTrack(lines)
  {
    if lines != [] {
      var prefix, line := lines[..|lines| - 1], lines[|lines| - 1];
      PlainScanFailsIffBareTrack(prefix);
      if Scan(prefix).Ok? {
        assert Scan(lines) == ScanLine(Scan(prefix).value, line);
        ScanLinePlainFails(Scan(prefix).value, line);
      }
    }
  }

  // ----- Every captured value is a single line -----

  predicate NoNewlines(m: Metadata) {
    && (forall f :: Get(m.disc, f).Some? ==> '\n' !in Get(m.disc, f).value)
    && (forall k :: k in m.songs ==> '\n' !in m.songs[k])
  }

  lemma {:induction false} ScanHasNoNewlines(lines: seq<string>)
    requires Scan(lines).Ok?
    ensures NoNewlines(Scan(lines).value)
  {
    if lines != [] {
      var prefix := lines[..|lines| - 1];
      if Scan(prefix).Err? {
        assert false;
      }
      ScanHasNoNewlines(prefix);
    }
  }

  // ----- The artist / album split -----

  /**
   * `re.match(r'(.*) / (.*)', title)`: the greedy first group makes the
   * split fall at the last " / ". `None` where there is no separator.
   */
  function SplitTitle(title: string): (r: Option<(string, string)>)
    requires '\n' !in title
    ensures r.Some? <==> Contains(title, " / ")
    ensures r.Some? ==> r.value.0 + " / " + r.value.1 == title
    ensures r.Some? ==> forall j: nat :: j > |r.value.0| ==> !OccursAt(title, " / ", j)
  {
    match FindLast(title, " / ")
    case None => None
    case Some(k) =>
      assert title == title[..k] + " / " + title[k + 3..];
      Some((title[..k], title[k + 3..]))
  }

  /** The album never contains the separator: everything before the last one is the artist. */
  lemma AlbumHasNoSeparator(title: string)
    requires '\n' !in title && SplitTitle(title).Some?
    ensures !Contains(SplitTitle(title).value.1, " / ")
  {
    var (artist, album) := SplitTitle(title).value;
    assert title == artist + " / " + album;
    forall i: nat ensures !OccursAt(album, " / ", i) {
      assert !OccursAt(title, " / ", |artist| + 3 + i);
      if i + 3 <= |album| {
        assert album[i..i + 3] == title[|artist| + 3 + i..|artist| + 3 + i + 3];
      }
    }
    ContainsIff(album, " / ");
  }

  /**
   * The split is determined: any artist and album that rejoin to the title
   * around a " / " after which no separator starts are the ones `SplitTitle` gives.
   */
  lemma SplitTitleUnique(title: string, artist: string, album: string)
    requires '\n' !in title && artist + " / " + album == title
    requires forall j: nat :: j > |artist| ==> !OccursAt(title, " / ", j)
    ensures SplitTitle(title) == Some((artist, album))
  {
    assert OccursAt(title, " / ", |artist|) by {
      assert title[|artist|..|artist| + 3] == " / ";
    }
    var (a, b) := SplitTitle(title).value;
    assert OccursAt(title, " / ", |a|) by {
      assert title[|a|..|a| + 3] == " / ";
    }
    assert |a| == |artist|;
    assert a == title[..|a|] && artist == title[..|artist|];
    assert b == title[|a| + 3..] && album == title[|artist| + 3..];
  }

  /** With exactly one separator, artist and album are the text on either side of it. */
  lemma SplitAtOnlySeparator(title: string, k: nat)
    requires '\n' !in title && OccursAt(title, " / ", k)
    requires forall j: nat :: j != k ==> !OccursAt(title, " / ", j)
    ensures SplitTitle(title) == Some((title[..k], title[k + 3..]))
  {
    var (artist, album) := SplitTitle(title).value;
    assert OccursAt(title, " / ", |artist|) by {
      assert title[|artist|..|artist| + 3] == " / ";
    }
  }

  /**
   * Lines 84-86: artist and album from the disc title, when it holds a " / ";
   * left unset otherwise.
   */
  function SplitDisc(d: Disc): Disc
    requires d.title.Some? && '\n' !in d.title.value
  {
    match SplitTitle(d.title.value)
    case None => d
    case Some((artist, album)) => d.(artist := Some(artist), album := Some(album))
  }

  /**
   * Artist and album are set exactly when the title holds a " / "; they then
   * rejoin to the title around it and the album holds none; the other fields
   * are untouched.
   */
  lemma SplitDiscFields(d: Disc)
    requires d.title.Some? && '\n' !in d.title.value
    requires d.artist.None? && d.album.None?
    ensures var r := SplitDisc(d);
      && r.title == d.title && r.year == d.year && r.genre == d.genre
      && (r.artist.Some? <==> Contains(d.title.value, " / "))
      && r.album.Some? == r.artist.Some?
      && (r.artist.Some? ==>
            r.artist.value + " / " + r.album.value == d.title.value && !Contains(r.album.value, " / "))
      && (r.artist.Some? ==> forall j: nat :: j > |r.artist.value| ==> !OccursAt(d.title.value, " / ", j))
  {
    if SplitTitle(d.title.value).Some? {
      AlbumHasNoSeparator(d.title.value);
    }
  }

  /** The scan never sets artist or album. */
  lemma {:induction false} ScanLeavesArtistAlbumUnset(lines: seq<string>)
    requires Scan(lines).Ok?
    ensures Scan(lines).value.disc.artist.None? && Scan(lines).value.disc.album.None?
  {
    if lines != [] {
      var prefix := lines[..|lines| - 1];
      if Scan(prefix).Err? {
        assert false;
      }
      ScanLeavesArtistAlbumUnset(prefix);
    }
  }

  /**
   * Lines 50-86: scan the file, then split the title into artist and album.
   * A file without `DTITLE=` raises at the split.
   */
  function ParseCddb(lines: seq<string>): Result<Metadata, ParseError> {
    match Scan(lines)
    case Err(e) => Err(e)
    case Ok(m) =>
      if m.disc.title.None? then Err(NoDiscTitle)
      else
        ScanHasNoNewlines(lines);
        assert Get(m.disc, DiscTitle).Some?;
        Ok(m.(disc := SplitDisc(m.disc)))
  }

  /** Reading an existing file raises exactly when a line raises or no line carries `DTITLE=`. */
  lemma ParseCddbFailsIff(lines: seq<string>)
    ensures ParseCddb(lines).Err? <==>
      Scan(lines).Err? || forall j :: 0 <= j < |lines| ==> !Contains(lines[j], "DTITLE=")
    ensures ParseCddb(lines).Err? && Scan(lines).Ok? ==> ParseCddb(lines).error == NoDiscTitle
  {
    if Scan(lines).Ok? {
      TitleUnsetIffNoTitleLine(lines);
    }
  }

  /** A parsed file: the scanned record with artist and album split off the title. */
  lemma ParseCddbSplitsTitle(lines: seq<string>)
    requires ParseCddb(lines).Ok?
    ensures Scan(lines).Ok?
    ensures var d := ParseCddb(lines).value.disc;
      && d.title.Some? && d.title == Scan(lines).value.disc.title
      && d.year == Scan(lines).value.disc.year && d.genre == Scan(lines).value.disc.genre
      && (d.artist.Some? <==> Contains(d.title.value, " / "))
      && d.album.Some? == d.artist.Some?
      && (d.artist.Some? ==>
            d.artist.value + " / " + d.album.value == d.title.value && !Contains(d.album.value, " / "))
      && (d.artist.Some? ==> forall j: nat :: j > |d.artist.value| ==> !OccursAt(d.title.value, " / ", j))
    ensures ParseCddb(lines).value.songs == Scan(lines).value.songs
  {
    var m := Scan(lines).value;
    ScanHasNoNewlines(lines);
    assert Get(m.disc, DiscTitle).Some?;
    ScanLeavesArtistAlbumUnset(lines);
    SplitDiscFields(m.disc);
  }

  // ----- No metadata file -----

  /** The track numbers 1..n. */
  function TrackNumbers(n: nat): (r: set<nat>)
    ensures forall k :: k in r <==> 1 <= k <= n
  {
    if n == 0 then {} else TrackNumbers(n - 1) + {n}
  }

  /** Lines 89-97: every disc field the empty string, tracks 1..n with empty titles. */
  function MissingFile(n: nat): (m: Metadata)
    ensures forall f :: Get(m.disc, f) == Some("")
    ensures m.songs.Keys == TrackNumbers(n)
    ensures forall k :: k in m.songs ==> m.songs[k] == ""
  {
    Metadata(Disc(Some(""), Some(""), Some(""), Some(""), Some("")), map k | k in TrackNumbers(n) :: "")
  }

  /** The same, as the script builds it: one entry per `.wav` file enumerated from 1. */
  method DefaultMetadata(wavCount: nat) returns (m: Metadata)
    ensures m == MissingFile(wavCount)
  {
    var disc := NoDisc;
    disc := disc.(title := Some(""));
    disc := disc.(year := Some(""));
    disc := disc.(genre := Some(""));
    disc := disc.(artist := Some(""));
    disc := disc.(album := Some(""));
    var songs: map<nat, string> := map[];
    var count := 0;
    while count < wavCount
      invariant count <= wavCount
      invariant songs == map k | k in TrackNumbers(count) :: ""
    {
      count := count + 1;
      songs := songs[count := ""];
    }
    m := Metadata(disc, songs);
  }

  /** The missing-file default has exactly `n` tracks. */
  lemma {:induction false} MissingFileTrackCount(n: nat)
    ensures |MissingFile(n).songs| == n
  {
    if n > 0 {
      MissingFileTrackCount(n - 1);
      assert MissingFile(n).songs.Keys == MissingFile(n - 1).songs.Keys + {n};
    }
  }

  /** Lines 50-97: the metadata file's lines if it exists, else the number of `.wav` files. */
  function ReadMetadata(cddb: Option<seq<string>>, wavCount: nat): Result<Metadata, ParseError> {
    match cddb
    case Some(lines) => ParseCddb(lines)
    case None => Ok(MissingFile(wavCount))
  }
}
