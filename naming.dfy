/**
 * The encoding loop and the publication decision: the `.wav` file read for
 * each track, the `.mp3` file written, the tag values handed to the encoder,
 * and whether the result is moved to an artist/album directory.
 */
module Naming {
  import opened Wrappers
  import opened Text
  import opened Cddb

  /** `'%.2d' % n`: the decimal digits of `n`, zero-padded to at least two. */
  function Pad2(n: nat): (r: string)
    ensures |r| >= 2 && AllDigits(r)
    ensures |r| == 2 <==> n < 100
    ensures DecimalValue(r) == n
    ensures n >= 10 ==> r == Decimal(n)
  {
    if n < 10 then
      LeadingZero(Decimal(n));
      "0" + Decimal(n)
    else
      DecimalLength(n);
      Decimal(n)
  }

  /** Line 138: `'audio_%.2d.wav' % n`, the file cdda2wav wrote for track `n`. */
  function WavName(n: nat): string {
    "audio_" + Pad2(n) + ".wav"
  }

  /** The `.wav` name is `audio_`, digits that read back as the track number, `.wav`. */
  lemma WavNameReadsBack(n: nat)
    ensures var r := WavName(n);
      && |r| >= 12 && r[..6] == "audio_" && r[|r| - 4..] == ".wav"
      && AllDigits(r[6..|r| - 4]) && DecimalValue(r[6..|r| - 4]) == n
  {
    var r := WavName(n);
    assert r[6..|r| - 4] == Pad2(n);
  }

  /** Distinct tracks read distinct `.wav` files. */
  lemma WavNameInjective(a: nat, b: nat)
    requires WavName(a) == WavName(b)
    ensures a == b
  {
    WavNameReadsBack(a);
    WavNameReadsBack(b);
  }

  /** Line 139: `'%.2d %s.mp3' % (n, title)`. */
  function Mp3Name(n: nat, title: string): string {
    Pad2(n) + " " + title + ".mp3"
  }

  /**
   * The `.mp3` name ends in `.mp3`; the text before its first space reads
   * back as the track number and the text between that space and the
   * extension is the title.
   */
  lemma Mp3NameReadsBack(n: nat, title: string)
    ensures var r := Mp3Name(n, title);
      && |r| >= 7 && r[|r| - 4..] == ".mp3"
      && (exists i :: 0 <= i < |r| - 4 && r[i] == ' ')
      && forall i :: 0 <= i < |r| - 4 && r[i] == ' ' && ' ' !in r[..i] ==>
           AllDigits(r[..i]) && DecimalValue(r[..i]) == n && r[i + 1..|r| - 4] == title
  {
    var p := Pad2(n);
    var r := Mp3Name(n, title);
    assert r[..|p|] == p && r[|p|] == ' ';
    assert r[|p| + 1..|r| - 4] == title;
    assert forall i :: 0 <= i < |p| ==> r[i] == p[i] && IsDigit(r[i]);
    assert forall i :: |p| < i < |r| - 4 ==> r[..i][|p|] == ' ';
    forall i | 0 <= i < |r| - 4 && r[i] == ' ' && ' ' !in r[..i] ensures i == |p| { }
  }

  /** Distinct tracks write distinct `.mp3` files, whatever their titles. */
  lemma Mp3NameInjective(a: nat, s: string, b: nat, t: string)
    requires Mp3Name(a, s) == Mp3Name(b, t)
    ensures a == b && s == t
  {
    var r := Mp3Name(a, s);
    var i := |Pad2(a)|;
    Mp3NameReadsBack(a, s);
    Mp3NameReadsBack(b, t);
    assert r[i] == ' ';
    assert r[..i] == Pad2(a);
    assert ' ' !in r[..i] by {
      assert AllDigits(Pad2(a));
    }
  }

  /** Line 144: `'%s/%s' % (n, len(songs))`, the encoder's track tag. */
  function TrackTag(n: nat, total: nat): string {
    Decimal(n) + "/" + Decimal(total)
  }

  /** The track tag holds a '/', and the digits on either side read back as `n` and `total`. */
  lemma TrackTagReadsBack(n: nat, total: nat)
    ensures var r := TrackTag(n, total);
      && (exists i :: 0 <= i < |r| && r[i] == '/')
      && forall i :: 0 <= i < |r| && r[i] == '/' ==>
           && AllDigits(r[..i]) && DecimalValue(r[..i]) == n
           && AllDigits(r[i + 1..]) && DecimalValue(r[i + 1..]) == total
  {
    var a, b := Decimal(n), Decimal(total);
    var r := TrackTag(n, total);
    assert r[..|a|] == a && r[|a|] == '/' && r[|a| + 1..] == b;
    assert forall i :: 0 <= i < |a| ==> r[i] == a[i] && IsDigit(r[i]);
    assert forall i :: |a| < i < |r| ==> r[i] == b[i - |a| - 1] && IsDigit(r[i]);
    forall i | 0 <= i < |r| && r[i] == '/' ensures i == |a| { }
  }

  /** `'%s' % v` for a value taken with `disc_info.get`: a missing key prints as `None`. */
  function TagText(v: Option<string>): (r: string)
    ensures v.Some? ==> r == v.value
    ensures v.None? ==> r == "None"
  {
    match v
    case Some(s) => s
    case None => "None"
  }

  /** One pass of the encoding loop: the track, its title, the track count and the disc record. */
  datatype Job = Job(track: nat, title: string, trackCount: nat, disc: Disc)

  /** The six tags lame is given (`--tt`, `--ta`, `--tl`, `--ty`, `--tn`, `--tg`). */
  datatype Tags = Tags(title: string, artist: string, album: string, year: string,
                       track: string, genre: string)

  /** Lines 136-137: the pass of the loop for track `n`. */
  function JobFor(m: Metadata, n: nat): (j: Job)
    requires n in m.songs
    ensures j.track == n && j.title == m.songs[n]
  {
    Job(n, m.songs[n], |m.songs|, m.disc)
  }

  /** Line 138: the file lame reads. */
  function WavFile(j: Job): string {
    WavName(j.track)
  }

  /** Line 139: the file lame writes. */
  function Mp3File(j: Job): string {
    Mp3Name(j.track, j.title)
  }

  /** Lines 140-145: the tag values on lame's command line. */
  function TagsOf(j: Job): Tags {
    Tags(j.title, TagText(j.disc.artist), TagText(j.disc.album), TagText(j.disc.year),
         TrackTag(j.track, j.trackCount), TagText(j.disc.genre))
  }

  /** The track numbers a list of encoder runs covers. */
  function Tracks(jobs: seq<Job>): set<nat> {
    set i | 0 <= i < |jobs| :: jobs[i].track
  }

  /**
   * Lines 135-145: one pass per entry of `songs`, in the dictionary's own
   * (unspecified) order, each built from the current record; every track
   * is encoded exactly once.
   */
  method PlanEncoding(m: Metadata) returns (jobs: seq<Job>)
    ensures |jobs| == |m.songs|
    ensures forall i :: 0 <= i < |jobs| ==> jobs[i].track in m.songs && jobs[i] == JobFor(m, jobs[i].track)
    ensures forall i, j :: 0 <= i < j < |jobs| ==> jobs[i].track != jobs[j].track
    ensures Tracks(jobs) == m.songs.Keys
  {
    jobs := [];
    var todo := m.songs.Keys;
    while todo != {}
      invariant todo <= m.songs.Keys
      invariant |jobs| + |todo| == |m.songs|
      invariant forall i :: 0 <= i < |jobs| ==> jobs[i].track in m.songs && jobs[i] == JobFor(m, jobs[i].track)
      invariant forall i, j :: 0 <= i < j < |jobs| ==> jobs[i].track != jobs[j].track
      invariant forall i :: 0 <= i < |jobs| ==> jobs[i].track !in todo
      invariant forall n :: n in m.songs && n !in todo ==> exists i :: 0 <= i < |jobs| && jobs[i].track == n
      decreases |todo|
    {
      var n :| n in todo;
      var next := jobs + [JobFor(m, n)];
      assert forall i :: 0 <= i < |jobs| ==> next[i] == jobs[i];
      assert next[|jobs|].track == n;
      jobs := next;
      todo := todo - {n};
    }
    assert forall n :: n in m.songs ==> n in Tracks(jobs);
  }

  /** Distinct encoder runs of one plan write distinct `.mp3` files. */
  lemma JobsWriteDistinctFiles(m: Metadata, a: nat, b: nat)
    requires a in m.songs && b in m.songs && a != b
    ensures Mp3File(JobFor(m, a)) != Mp3File(JobFor(m, b))
    ensures WavFile(JobFor(m, a)) != WavFile(JobFor(m, b))
  {
    if Mp3File(JobFor(m, a)) == Mp3File(JobFor(m, b)) {
      Mp3NameInjective(a, m.songs[a], b, m.songs[b]);
    }
    if WavFile(JobFor(m, a)) == WavFile(JobFor(m, b)) {
      WavNameInjective(a, b);
    }
  }

  /** Line 148: `disc_info.get('artist') and disc_info.get('album')`. */
  predicate ShouldPublish(d: Disc) {
    !Unset(d.artist) && !Unset(d.album)
  }

  /** Python's `os.path.join(a, b)` on POSIX. */
  function Join(a: string, b: string): string {
    if |b| > 0 && b[0] == '/' then b
    else if a == [] || a[|a| - 1] == '/' then a + b
    else a + "/" + b
  }

  /** Line 149: where the `.mp3` files are moved, when they are. */
  function AlbumDir(d: Disc): (r: Option<string>)
    ensures r.Some? <==> ShouldPublish(d)
  {
    if ShouldPublish(d) then Some(Join(Join("/tmp", d.artist.value), d.album.value)) else None
  }

  /**
   * With no '/' in artist or album (as sanitising leaves them), the album
   * directory is the path string `/tmp/<artist>/<album>`. The path is not
   * normalised: an artist `..` names a directory outside `/tmp`.
   */
  lemma AlbumDirIsTmpArtistAlbum(d: Disc)
    requires ShouldPublish(d) && '/' !in d.artist.value && '/' !in d.album.value
    ensures AlbumDir(d) == Some("/tmp/" + d.artist.value + "/" + d.album.value)
  {
    var a, b := d.artist.value, d.album.value;
    assert a[0] in a && b[0] in b;
    assert "/tmp"[3] == 'p';
    assert Join("/tmp", a) == "/tmp/" + a;
    var p := "/tmp/" + a;
    assert p[|p| - 1] == a[|a| - 1] && a[|a| - 1] in a;
    assert Join(p, b) == p + "/" + b;
  }

  /**
   * Lines 140-145: lame is given the track's own title, a track tag that
   * reads back as the track number and `len(songs)`, and each disc value as
   * it stands, or the text `None` when it was never set.
   */
  lemma JobTags(m: Metadata, n: nat)
    requires n in m.songs
    ensures var t := TagsOf(JobFor(m, n));
      && t.title == m.songs[n]
      && (forall i :: 0 <= i < |t.track| && t.track[i] == '/' ==>
            && AllDigits(t.track[..i]) && DecimalValue(t.track[..i]) == n
            && AllDigits(t.track[i + 1..]) && DecimalValue(t.track[i + 1..]) == |m.songs|)
      && (exists i :: 0 <= i < |t.track| && t.track[i] == '/')
      && (m.disc.artist.None? ==> t.artist == "None") && (m.disc.artist.Some? ==> t.artist == m.disc.artist.value)
      && (m.disc.album.None? ==> t.album == "None") && (m.disc.album.Some? ==> t.album == m.disc.album.value)
      && (m.disc.year.None? ==> t.year == "None") && (m.disc.year.Some? ==> t.year == m.disc.year.value)
      && (m.disc.genre.None? ==> t.genre == "None") && (m.disc.genre.Some? ==> t.genre == m.disc.genre.value)
  {
    TrackTagReadsBack(n, |m.songs|);
  }
}
