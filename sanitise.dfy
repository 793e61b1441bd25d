/**
 * Removing the characters that would break a file name or a quoted shell
 * argument: double quotes go everywhere; '/' becomes " - " in disc fields
 * and is dropped from track titles.
 */
module Sanitise {
  import opened Wrappers
  import opened Text
  import opened Cddb

  /** Line 103: `v.replace('"', '').replace('/', ' - ')`. */
  function CleanDiscText(s: string): (r: string)
    ensures '"' !in r && '/' !in r
  {
    Replace(Remove(s, '"'), '/', " - ")
  }

  /** What each character of a disc field turns into. */
  function DiscCharText(c: char): string {
    if c == '"' then "" else if c == '/' then " - " else [c]
  }

  /** A disc field rewritten character by character, in one pass. */
  function EscapeDiscText(s: string): string {
    if s == [] then [] else DiscCharText(s[0]) + EscapeDiscText(s[1..])
  }

  /**
   * The two `replace` calls amount to one pass in which each `"` is deleted,
   * each '/' becomes " - " and every other character is kept in place.
   */
  lemma {:induction false} CleanDiscTextIsOnePass(s: string)
    ensures CleanDiscText(s) == EscapeDiscText(s)
  {
    if s != [] {
      CleanDiscTextIsOnePass(s[1..]);
      var head := if s[0] == '"' then "" else [s[0]];
      assert Remove(s, '"') == head + Remove(s[1..], '"');
      ReplaceAppend(head, Remove(s[1..], '"'), '/', " - ");
      if head != [] {
        assert head[1..] == [];
      }
    }
  }

  /** Cleaning a disc field a second time changes nothing. */
  lemma CleanDiscTextIdempotent(s: string)
    ensures CleanDiscText(CleanDiscText(s)) == CleanDiscText(s)
  {
    var r := CleanDiscText(s);
    RemoveAbsent(r, '"');
    ReplaceAbsent(r, '/', " - ");
  }

  /** Lines 102-104: an absent field stays absent, a present one is cleaned. */
  function CleanField(v: Option<string>): (r: Option<string>)
    ensures r.None? <==> v.None?
    ensures r.Some? ==> '"' !in r.value && '/' !in r.value
  {
    if v.Some? then Some(CleanDiscText(v.value)) else None
  }

  /** Lines 101-104 applied to the whole disc record. */
  function CleanDisc(d: Disc): (r: Disc)
    ensures forall f :: Get(r, f) == CleanField(Get(d, f))
  {
    Disc(CleanField(d.title), CleanField(d.year), CleanField(d.genre),
         CleanField(d.artist), CleanField(d.album))
  }

  lemma DiscEquality(a: Disc, b: Disc)
    requires forall f :: Get(a, f) == Get(b, f)
    ensures a == b
  {
    assert Get(a, DiscTitle) == Get(b, DiscTitle) && Get(a, Year) == Get(b, Year);
    assert Get(a, Genre) == Get(b, Genre) && Get(a, Artist) == Get(b, Artist);
    assert Get(a, Album) == Get(b, Album);
  }

  /**
   * Lines 101-104: the loop over the five keys of `disc_info`, replacing
   * each value in place.
   */
  method SanitiseDisc(d: Disc) returns (r: Disc)
    ensures r == CleanDisc(d)
  {
    r := d;
    var keys := [DiscTitle, Year, Genre, Artist, Album];
    for i := 0 to |keys|
      invariant forall j :: 0 <= j < i ==> Get(r, keys[j]) == CleanField(Get(d, keys[j]))
      invariant forall j :: i <= j < |keys| ==> Get(r, keys[j]) == Get(d, keys[j])
    {
      var existing := Get(r, keys[i]);
      r := Set(r, keys[i], if existing.Some? then Some(CleanDiscText(existing.value)) else None);
    }
    forall f ensures Get(r, f) == Get(CleanDisc(d), f) {
      assert f == keys[0] || f == keys[1] || f == keys[2] || f == keys[3] || f == keys[4];
    }
    DiscEquality(r, CleanDisc(d));
  }

  /** Cleaning the disc record a second time changes nothing. */
  lemma CleanDiscIdempotent(d: Disc)
    ensures CleanDisc(CleanDisc(d)) == CleanDisc(d)
  {
    forall f ensures Get(CleanDisc(CleanDisc(d)), f) == Get(CleanDisc(d), f) {
      if Get(d, f).Some? {
        CleanDiscTextIdempotent(Get(d, f).value);
      }
    }
    DiscEquality(CleanDisc(CleanDisc(d)), CleanDisc(d));
  }

  /** Line 106: `name.replace('"', '').replace('/', '')`. */
  function CleanTitle(s: string): (r: string)
    ensures '"' !in r && '/' !in r
  {
    Replace(Remove(s, '"'), '/', "")
  }

  /** The characters of `s` other than `"` and '/', in their order. */
  function KeepTitleChars(s: string): string {
    if s == [] then []
    else (if s[0] == '"' || s[0] == '/' then [] else [s[0]]) + KeepTitleChars(s[1..])
  }

  /** A track title loses exactly its `"` and '/' characters; the rest stays in order. */
  lemma {:induction false} CleanTitleDeletesOnly(s: string)
    ensures CleanTitle(s) == KeepTitleChars(s)
  {
    if s != [] {
      CleanTitleDeletesOnly(s[1..]);
      var head := if s[0] == '"' then "" else [s[0]];
      assert Remove(s, '"') == head + Remove(s[1..], '"');
      ReplaceAppend(head, Remove(s[1..], '"'), '/', "");
      if head != [] {
        assert head[1..] == [];
      }
    }
  }

  /** Cleaning a track title a second time changes nothing. */
  lemma CleanTitleIdempotent(s: string)
    ensures CleanTitle(CleanTitle(s)) == CleanTitle(s)
  {
    var r := CleanTitle(s);
    RemoveAbsent(r, '"');
    ReplaceAbsent(r, '/', "");
  }

  /** Lines 105-106 applied to `songs`: the same track numbers, each title cleaned. */
  function CleanSongs(songs: map<nat, string>): (r: map<nat, string>)
    ensures r.Keys == songs.Keys
    ensures forall k :: k in r ==> '"' !in r[k] && '/' !in r[k]
  {
    map k | k in songs :: CleanTitle(songs[k])
  }

  /** Lines 105-106: the loop over the track numbers, replacing each title in place. */
  method SanitiseSongs(songs: map<nat, string>) returns (r: map<nat, string>)
    ensures r == CleanSongs(songs)
  {
    r := songs;
    var todo := songs.Keys;
    while todo != {}
      invariant todo <= songs.Keys && r.Keys == songs.Keys
      invariant forall k :: k in songs && k !in todo ==> r[k] == CleanTitle(songs[k])
      invariant forall k :: k in todo ==> r[k] == songs[k]
      decreases |todo|
    {
      var k :| k in todo;
      r := r[k := CleanTitle(r[k])];
      todo := todo - {k};
    }
  }

  /** Both sanitising loops together. */
  function CleanMetadata(m: Metadata): Metadata {
    Metadata(CleanDisc(m.disc), CleanSongs(m.songs))
  }

  /** After sanitising, no field and no title holds `"` or '/'. */
  predicate IsClean(m: Metadata) {
    && (forall f :: Get(m.disc, f).Some? ==> '"' !in Get(m.disc, f).value && '/' !in Get(m.disc, f).value)
    && (forall k :: k in m.songs ==> '"' !in m.songs[k] && '/' !in m.songs[k])
  }

  /** Sanitising yields a clean record, keeps the track numbers and is idempotent. */
  lemma CleanMetadataIsClean(m: Metadata)
    ensures IsClean(CleanMetadata(m))
    ensures CleanMetadata(m).songs.Keys == m.songs.Keys
    ensures CleanMetadata(CleanMetadata(m)) == CleanMetadata(m)
  {
    CleanDiscIdempotent(m.disc);
    forall k | k in m.songs ensures CleanTitle(CleanTitle(m.songs[k])) == CleanTitle(m.songs[k]) {
      CleanTitleIdempotent(m.songs[k]);
    }
    assert CleanSongs(CleanSongs(m.songs)) == CleanSongs(m.songs);
  }
}
