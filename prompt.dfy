/**
 * The yes/no questions asked before encoding: a reply is upper-cased and
 * stripped of surrounding whitespace (Python 2 `str.upper().strip()` on a
 * byte string), then compared with `Y`, `N`, `YES` and `NO`.
 */
module Prompt {
  import opened Wrappers

  /** The characters Python 2 `str.strip()` removes: space, \t, \n, \v, \f, \r. */
  predicate IsSpace(c: char) {
    c == ' ' || c == '\t' || c == '\n' || c == '\r' || c == 11 as char || c == 12 as char
  }

  predicate AllSpace(s: string) {
    forall i :: 0 <= i < |s| ==> IsSpace(s[i])
  }

  /** `str.upper()` in the C locale: only ASCII letters change. */
  function UpperChar(c: char): char {
    if 'a' <= c <= 'z' then (c as int - 'a' as int + 'A' as int) as char else c
  }

  function Upper(s: string): (r: string)
    ensures |r| == |s| && forall i :: 0 <= i < |s| ==> r[i] == UpperChar(s[i])
  {
    seq(|s|, i requires 0 <= i < |s| => UpperChar(s[i]))
  }

  /** `str.lstrip()`. */
  function StripLeft(s: string): (r: string)
    ensures |r| <= |s| && r == s[|s| - |r|..]
    ensures AllSpace(s[..|s| - |r|])
    ensures r == [] || !IsSpace(r[0])
    decreases |s|
  {
    if s != [] && IsSpace(s[0]) then
      var r := StripLeft(s[1..]);
      assert s[..|s| - |r|] == [s[0]] + s[1..][..|s| - 1 - |r|];
      r
    else s
  }

  /** `str.rstrip()`. */
  function StripRight(s: string): (r: string)
    ensures |r| <= |s| && r == s[..|r|]
    ensures AllSpace(s[|r|..])
    ensures r == [] || !IsSpace(r[|r| - 1])
    decreases |s|
  {
    if s != [] && IsSpace(s[|s| - 1]) then
      var r := StripRight(s[..|s| - 1]);
      assert s[|r|..] == s[..|s| - 1][|r|..] + [s[|s| - 1]];
      r
    else s
  }

  /** `str.strip()`. */
  function Strip(s: string): string {
    StripRight(StripLeft(s))
  }

  /** Lines 115, 123 and 128: what a reply is compared as. */
  function Normalise(s: string): string {
    Strip(Upper(s))
  }

  /** Lines 114 and 127: the words that end the question. */
  predicate AnswerWord(w: string) {
    w == "Y" || w == "N" || w == "YES" || w == "NO"
  }

  /** Lines 116, 123, 129 and 134: the words that mean yes. */
  predicate YesWord(w: string) {
    w == "Y" || w == "YES"
  }

  predicate IsAnswer(reply: string) {
    AnswerWord(Normalise(reply))
  }

  /** Line 123 and 134: `... .upper().strip() in ('Y', 'YES')`. */
  predicate IsYes(reply: string) {
    YesWord(Normalise(reply))
  }

  lemma UpperAppend(a: string, b: string)
    ensures Upper(a + b) == Upper(a) + Upper(b)
  {
    var l, r := Upper(a + b), Upper(a) + Upper(b);
    assert |l| == |r|;
    forall k | 0 <= k < |l| ensures l[k] == r[k] {
      if k < |a| {
        assert (a + b)[k] == a[k];
      } else {
        assert (a + b)[k] == b[k - |a|];
      }
    }
  }

  lemma UpperKeepsSpace(s: string)
    ensures forall i :: 0 <= i < |s| ==> (IsSpace(Upper(s)[i]) <==> IsSpace(s[i]))
    ensures AllSpace(s) ==> AllSpace(Upper(s))
  {
  }

  lemma UpperIdempotent(s: string)
    ensures Upper(Upper(s)) == Upper(s)
  {
    var u := Upper(s);
    forall k | 0 <= k < |s| ensures Upper(u)[k] == u[k] {
    }
  }

  /** Leading whitespace does not survive `lstrip`. */
  lemma {:induction false} StripLeftPadded(w: string, s: string)
    requires AllSpace(w)
    ensures StripLeft(w + s) == StripLeft(s)
    decreases |w|
  {
    if w != [] {
      assert (w + s)[1..] == w[1..] + s;
      StripLeftPadded(w[1..], s);
    } else {
      assert w + s == s;
    }
  }

  /** Trailing whitespace does not survive `rstrip`. */
  lemma {:induction false} StripRightPadded(s: string, w: string)
    requires AllSpace(w)
    ensures StripRight(s + w) == StripRight(s)
    decreases |w|
  {
    if w != [] {
      var v := w[..|w| - 1];
      assert (s + w)[..|s + w| - 1] == s + v;
      StripRightPadded(s, v);
    } else {
      assert s + w == s;
    }
  }

  /** `lstrip` of `s + w` either keeps `w` whole or, when `s` is blank, is blank. */
  lemma {:induction false} StripLeftAppend(s: string, w: string)
    requires AllSpace(w)
    ensures StripLeft(s) == [] ==> StripLeft(s + w) == []
    ensures StripLeft(s) != [] ==> StripLeft(s + w) == StripLeft(s) + w
    decreases |s|
  {
    if s == [] {
      assert s + w == w;
      StripLeftPadded(w, []);
      assert w + [] == w;
    } else if IsSpace(s[0]) {
      assert (s + w)[1..] == s[1..] + w;
      StripLeftAppend(s[1..], w);
    }
  }

  /** Whitespace around a reply never changes how it is read. */
  lemma NormaliseIgnoresPadding(w1: string, s: string, w2: string)
    requires AllSpace(w1) && AllSpace(w2)
    ensures Normalise(w1 + s + w2) == Normalise(s)
  {
    var u1, u, u2 := Upper(w1), Upper(s), Upper(w2);
    UpperAppend(w1 + s, w2);
    UpperAppend(w1, s);
    assert Upper(w1 + s + w2) == u1 + (u + u2);
    UpperKeepsSpace(w1);
    UpperKeepsSpace(w2);
    StripLeftPadded(u1, u + u2);
    StripLeftAppend(u, u2);
    var l := StripLeft(u);
    if l != [] {
      StripRightPadded(l, u2);
    }
  }

  /** Letter case never changes how a reply is read. */
  lemma NormaliseIgnoresCase(s: string)
    ensures Normalise(Upper(s)) == Normalise(s)
  {
    UpperIdempotent(s);
  }

  /** Every reply is its stripped form with whitespace on either side. */
  lemma StripSplits(s: string)
    ensures var t := Strip(s);
      exists i, j :: 0 <= i <= j <= |s| && AllSpace(s[..i]) && AllSpace(s[j..]) && s[i..j] == t
  {
    var l := StripLeft(s);
    var t := StripRight(l);
    var i := |s| - |l|;
    var j := i + |t|;
    assert s[i..j] == l[..|t|];
    assert s[j..] == l[|t|..];
  }

  /** Every reply is its normalised form, in some letter case, with whitespace on either side. */
  lemma NormalisedIsCore(s: string)
    ensures exists i, j :: 0 <= i <= j <= |s| && AllSpace(s[..i]) && AllSpace(s[j..]) && Upper(s[i..j]) == Normalise(s)
  {
    var u := Upper(s);
    StripSplits(u);
    var i, j :| 0 <= i <= j <= |u| && AllSpace(u[..i]) && AllSpace(u[j..]) && u[i..j] == Normalise(s);
    UpperKeepsSpace(s);
    assert AllSpace(s[..i]) by {
      forall k | 0 <= k < i ensures IsSpace(s[..i][k]) {
        assert u[..i][k] == u[k];
      }
    }
    assert AllSpace(s[j..]) by {
      forall k | 0 <= k < |s| - j ensures IsSpace(s[j..][k]) {
        assert u[j..][k] == u[j + k];
      }
    }
    UpperSlice(s, i, j);
  }

  lemma UpperSlice(s: string, i: nat, j: nat)
    requires i <= j <= |s|
    ensures Upper(s[i..j]) == Upper(s)[i..j]
  {
    var a, b := Upper(s[i..j]), Upper(s)[i..j];
    assert |a| == |b|;
    forall k | 0 <= k < |a| ensures a[k] == b[k] {
      assert s[i..j][k] == s[i + k];
    }
  }

  /** A word in any letter case, with whitespace on either side, reads as the upper-case word. */
  lemma PaddedWordReadsAsWord(w1: string, t: string, w2: string, word: string)
    requires AllSpace(w1) && AllSpace(w2) && Upper(t) == word
    requires word != [] && !IsSpace(word[0]) && !IsSpace(word[|word| - 1])
    ensures Normalise(w1 + t + w2) == word
  {
    NormaliseIgnoresPadding(w1, t, w2);
    assert StripLeft(word) == word;
    assert StripRight(word) == word;
  }

  lemma UpperOfYes()
    ensures Upper("yes") == "YES"
  {
    var u := Upper("yes");
    assert u[0] == 'Y' && u[1] == 'E' && u[2] == 'S';
  }

  /** `yes` typed in lower case is read as yes. */
  lemma YesExample()
    ensures IsYes("yes")
  {
    UpperOfYes();
    PaddedWordReadsAsWord("", "yes", "", "YES");
    assert "" + "yes" + "" == "yes";
    assert Normalise("yes") == "YES";
  }

  /** ` n ` is an answer but not yes. */
  lemma NoExample()
    ensures IsAnswer(" n ") && !IsYes(" n ")
  {
    PaddedWordReadsAsWord(" ", "n", " ", "N");
    assert " " + "n" + " " == " n ";
    var r := Normalise(" n ");
    assert r == "N" && r[0] != 'Y';
  }

  /** `yeah` is not an answer: the question is asked again. */
  lemma NotAnAnswerExample()
    ensures !IsAnswer("yeah")
  {
    PaddedWordReadsAsWord("", "yeah", "", "YEAH");
    assert "" + "yeah" + "" == "yeah";
    var r := Normalise("yeah");
    assert r == "YEAH" && |r| == 4;
  }

  /** The first reply, in order, that is one of the four answers; `None` if input ends first. */
  function FirstAnswer(replies: seq<string>): (r: Option<string>)
    ensures r.Some? ==> AnswerWord(r.value)
    ensures r.Some? <==> exists i :: 0 <= i < |replies| && IsAnswer(replies[i])
  {
    if replies == [] then None
    else if IsAnswer(replies[0]) then Some(Normalise(replies[0]))
    else
      var r := FirstAnswer(replies[1..]);
      assert forall i :: 1 <= i < |replies| ==> replies[1..][i - 1] == replies[i];
      r
  }

  /** The answer taken is that of the first reply that is an answer; all before it are ignored. */
  lemma {:induction false} FirstAnswerIsFirst(replies: seq<string>, k: nat)
    requires k < |replies| && IsAnswer(replies[k])
    requires forall i :: 0 <= i < k ==> !IsAnswer(replies[i])
    ensures FirstAnswer(replies) == Some(Normalise(replies[k]))
    decreases k
  {
    if k > 0 {
      assert !IsAnswer(replies[0]);
      FirstAnswerIsFirst(replies[1..], k - 1);
    }
  }

  /**
   * Lines 113-115 (and 126-128): `resp` starts empty and, while prompting is
   * on and it is not an answer, is replaced by the next reply, upper-cased
   * and stripped. `None` is `raw_input` raising at the end of input.
   */
  method AskYesNo(prompting: bool, replies: seq<string>) returns (r: Option<string>)
    ensures !prompting ==> r == Some("")
    ensures prompting ==> r == FirstAnswer(replies)
  {
    var resp := "";
    var i := 0;
    while prompting && !AnswerWord(resp)
      invariant 0 <= i <= |replies|
      invariant !prompting ==> resp == ""
      invariant prompting && AnswerWord(resp) ==> FirstAnswer(replies) == Some(resp)
      invariant prompting && !AnswerWord(resp) ==> FirstAnswer(replies) == FirstAnswer(replies[i..])
      decreases |replies| - i
    {
      if i == |replies| {
        return None;
      }
      assert replies[i..][1..] == replies[i + 1..];
      resp := Normalise(replies[i]);
      i := i + 1;
    }
    return Some(resp);
  }
}
