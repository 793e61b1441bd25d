/**
 * The metadata steps of `main` in order: read the metadata file (or fall
 * back to the `.wav` count), sanitise, plan one encoder run per track, and
 * decide where the result is published.
 */
module Pipeline {
  import opened Wrappers
  import opened Text
  import opened Cddb
  import opened Sanitise
  import opened Naming

  /** Lines 50-106: the record the encoding loop starts from, before any interactive edit. */
  function Prepare(cddb: Option<seq<string>>, wavCount: nat): Result<Metadata, ParseError> {
    match ReadMetadata(cddb, wavCount)
    case Err(e) => Err(e)
    case Ok(m) => Ok(CleanMetadata(m))
  }

  /** Lines 50-106 as the script runs them: the scan loop, the split or the default, both sanitising loops. */
  method PrepareMetadata(cddb: Option<seq<string>>, wavCount: nat) returns (r: Result<Metadata, ParseError>)
    ensures r == Prepare(cddb, wavCount)
  {
    var m: Metadata;
    if cddb.Some? {
      var scanned := ScanCddb(cddb.value);
      if scanned.Err? {
        return Err(scanned.error);
      }
      if scanned.value.disc.title.None? {
        return Err(NoDiscTitle);
      }
      ScanHasNoNewlines(cddb.value);
      assert Get(scanned.value.disc, DiscTitle).Some?;
      m := scanned.value.(disc := SplitDisc(scanned.value.disc));
    } else {
      m := DefaultMetadata(wavCount);
    }
    var disc := SanitiseDisc(m.disc);
    var songs := SanitiseSongs(m.songs);
    r := Ok(Metadata(disc, songs));
  }

  /**
   * Without a metadata file and with `n` `.wav` files: every field is empty,
   * there are `n` tracks, numbered 1 to `n`, with empty titles, and nothing
   * is published.
   */
  lemma NoFileOutcome(n: nat)
    ensures Prepare(None, n).Ok?
    ensures var m := Prepare(None, n).value;
      && (forall f :: Get(m.disc, f) == Some(""))
      && m.songs.Keys == TrackNumbers(n) && |m.songs| == n
      && (forall k :: k in m.songs ==> m.songs[k] == "")
      && AlbumDir(m.disc).None?
  {
    var raw := MissingFile(n);
    MissingFileTrackCount(n);
    assert CleanDiscText("") == "";
    var m := Prepare(None, n).value;
    assert m.disc == CleanDisc(raw.disc);
    forall f ensures Get(m.disc, f) == Some("") {
      assert Get(raw.disc, f) == Some("");
    }
    forall k | k in m.songs ensures m.songs[k] == "" {
      assert raw.songs[k] == "";
    }
  }

  /**
   * What the encoding loop starts from holds no `"` and no '/' in any field
   * or title, and, when it is published, the album directory is the path
   * string `/tmp/<artist>/<album>`.
   */
  lemma PreparedIsClean(cddb: Option<seq<string>>, wavCount: nat)
    requires Prepare(cddb, wavCount).Ok?
    ensures IsClean(Prepare(cddb, wavCount).value)
    ensures var d := Prepare(cddb, wavCount).value.disc;
      ShouldPublish(d) ==> AlbumDir(d) == Some("/tmp/" + d.artist.value + "/" + d.album.value)
  {
    var raw := ReadMetadata(cddb, wavCount).value;
    CleanMetadataIsClean(raw);
    var d := Prepare(cddb, wavCount).value.disc;
    if ShouldPublish(d) {
      assert Get(d, Artist).Some? && Get(d, Album).Some?;
      AlbumDirIsTmpArtistAlbum(d);
    }
  }

  /**
   * Line 148 after lines 84-86 and 101-104: a record read from a metadata
   * file is published only if its disc title holds " / ", and then under
   * the cleaned text before the last " / " and the cleaned text after it.
   */
  lemma PublishedOnlyWithSeparator(lines: seq<string>, wavCount: nat)
    requires Prepare(Some(lines), wavCount).Ok?
    requires ShouldPublish(Prepare(Some(lines), wavCount).value.disc)
    ensures Scan(lines).Ok? && Scan(lines).value.disc.title.Some?
    ensures '\n' !in Scan(lines).value.disc.title.value
    ensures var title := Scan(lines).value.disc.title.value;
      var d := Prepare(Some(lines), wavCount).value.disc;
      && Contains(title, " / ")
      && d.artist == Some(CleanDiscText(SplitTitle(title).value.0))
      && d.album == Some(CleanDiscText(SplitTitle(title).value.1))
  {
    ParseCddbSplitsTitle(lines);
    var title := Scan(lines).value.disc.title.value;
    var parsed := ParseCddb(lines).value.disc;
    ScanHasNoNewlines(lines);
    assert Get(Scan(lines).value.disc, DiscTitle).Some?;
    ScanLeavesArtistAlbumUnset(lines);
    SplitDiscFields(Scan(lines).value.disc);
    assert parsed.artist.Some?;
  }

  /**
   * Lines 136-145 on the prepared record: one encoder run per track of the
   * prepared record, each built from that record, no two reading the same
   * `.wav` file or writing the same `.mp3` file.
   */
  method PlanFromFile(cddb: Option<seq<string>>, wavCount: nat) returns (r: Result<seq<Job>, ParseError>)
    ensures r.Err? <==> Prepare(cddb, wavCount).Err?
    ensures r.Err? ==> r.error == Prepare(cddb, wavCount).error
    ensures r.Ok? ==> var m := Prepare(cddb, wavCount).value;
      && |r.value| == |m.songs|
      && Tracks(r.value) == m.songs.Keys
      && forall i :: 0 <= i < |r.value| ==> r.value[i].track in m.songs && r.value[i] == JobFor(m, r.value[i].track)
    ensures r.Ok? ==> forall i, j :: 0 <= i < j < |r.value| ==>
      Mp3File(r.value[i]) != Mp3File(r.value[j]) && WavFile(r.value[i]) != WavFile(r.value[j])
  {
    var prepared := PrepareMetadata(cddb, wavCount);
    if prepared.Err? {
      return Err(prepared.error);
    }
    var m := prepared.value;
    var jobs := PlanEncoding(m);
    forall i, j | 0 <= i < j < |jobs|
      ensures Mp3File(jobs[i]) != Mp3File(jobs[j]) && WavFile(jobs[i]) != WavFile(jobs[j])
    {
      JobsWriteDistinctFiles(m, jobs[i].track, jobs[j].track);
    }
    r := Ok(jobs);
  }

  /**
   * Lines 143-144 on a record read from a file: a key that appears on no line
   * stays unset through lines 84-106 and reaches lame as the text `None`; so
   * do artist and album when the disc title holds no " / ".
   */
  lemma UnsetFieldsTaggedNone(lines: seq<string>, wavCount: nat, n: nat)
    requires Prepare(Some(lines), wavCount).Ok?
    requires n in Prepare(Some(lines), wavCount).value.songs
    ensures Scan(lines).Ok? && Scan(lines).value.disc.title.Some?
    ensures var tags := TagsOf(JobFor(Prepare(Some(lines), wavCount).value, n));
      && ((forall j :: 0 <= j < |lines| ==> !Contains(lines[j], "DYEAR=")) ==> tags.year == "None")
      && ((forall j :: 0 <= j < |lines| ==> !Contains(lines[j], "DGENRE=")) ==> tags.genre == "None")
      && (!Contains(Scan(lines).value.disc.title.value, " / ") ==> tags.artist == "None" && tags.album == "None")
  {
    ParseCddbSplitsTitle(lines);
    var scanned := Scan(lines).value.disc;
    var d := Prepare(Some(lines), wavCount).value.disc;
    assert d == CleanDisc(ParseCddb(lines).value.disc);
    if forall j :: 0 <= j < |lines| ==> !Contains(lines[j], "DYEAR=") {
      FieldUnsetWithoutKey(lines, Year);
      assert Get(d, Year) == CleanField(Get(scanned, Year));
    }
    if forall j :: 0 <= j < |lines| ==> !Contains(lines[j], "DGENRE=") {
      FieldUnsetWithoutKey(lines, Genre);
      assert Get(d, Genre) == CleanField(Get(scanned, Genre));
    }
  }

  /** Scanning the one line `DTITLE=.. / x` sets only the title. */
  lemma DotDotScanned()
    ensures Scan(["DTITLE=.. / x"]) == Ok(Metadata(NoDisc.(title := Some(".. / x")), map[]))
  {
    var line := "DTITLE=.. / x";
    var title := ".. / x";
    assert OccursAt(line, "DTITLE=", 0) by {
      assert line[0..7] == "DTITLE=";
    }
    assert line[7..] == title;
    TakeLineToEol(title, "");
    assert title + "" == title;
    assert Capture(line, "DTITLE=") == Some(title);
    assert [line][..0] == [];
    assert ScanLine(Metadata(NoDisc, map[]), line) == Ok(Metadata(NoDisc.(title := Some(title)), map[]));
  }

  /** `.. / x` splits into `..` and `x`. */
  lemma DotDotSplit()
    ensures SplitTitle(".. / x") == Some(("..", "x"))
  {
    var title := ".. / x";
    assert OccursAt(title, " / ", 2) by {
      assert title[2..5] == " / ";
    }
    forall j: nat | j != 2 ensures !OccursAt(title, " / ", j) {
      if j + 3 <= |title| {
        assert title[j..j + 3][1] == title[j + 1];
      }
    }
    SplitAtOnlySeparator(title, 2);
    assert title[..2] == ".." && title[5..] == "x";
  }

  /**
   * Lines 84-86, 101-104 and 149: the disc title `.. / x` survives
   * sanitising as artist `..` and album `x`, so the album directory is
   * `/tmp/../x`, which names `/x`.
   */
  lemma DotDotArtistLeavesTmp()
    ensures Prepare(Some(["DTITLE=.. / x"]), 0).Ok?
    ensures AlbumDir(Prepare(Some(["DTITLE=.. / x"]), 0).value.disc) == Some("/tmp/../x")
  {
    DotDotScanned();
    DotDotSplit();
    var parsed := Disc(Some(".. / x"), None, None, Some(".."), Some("x"));
    assert ParseCddb(["DTITLE=.. / x"]).value.disc == parsed;
    DotDotCleaned();
    var d := CleanDisc(parsed);
    assert d.artist == Some("..") && d.album == Some("x");
    DotDotDir(d);
  }

  /** Sanitising leaves `..` and `x` as they are. */
  lemma DotDotCleaned()
    ensures CleanDiscText("..") == ".." && CleanDiscText("x") == "x"
  {
    RemoveAbsent("..", '"');
    ReplaceAbsent("..", '/', " - ");
    RemoveAbsent("x", '"');
    ReplaceAbsent("x", '/', " - ");
  }

  /** Artist `..` and album `x` give the directory `/tmp/../x`. */
  lemma DotDotDir(d: Disc)
    requires d.artist == Some("..") && d.album == Some("x")
    ensures AlbumDir(d) == Some("/tmp/../x")
  {
    AlbumDirIsTmpArtistAlbum(d);
    assert "/tmp/" + ".." == "/tmp/..";
    assert "/tmp/.." + "/" == "/tmp/../";
    assert "/tmp/../" + "x" == "/tmp/../x";
  }
}
