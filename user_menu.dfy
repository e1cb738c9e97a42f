/**
 * The avatar text and short name shown in the header's user menu
 * (src/components/layout/user-menu.tsx), computed from the session user's
 * optional display name.
 */
module UserMenu {
  import opened Wrappers
  import opened Text

  /** `c` is the first character of some non-empty word. */
  predicate IsWordInitial(words: seq<string>, c: char) {
    exists w :: w in words && w != "" && c == w[0]
  }

  /** `.map((n) => n[0]).join("")`: the first character of every word; an
      empty word yields `undefined`, which `join` prints as nothing. */
  function FirstLetters(words: seq<string>): (r: string)
    ensures |r| <= |words|
    ensures (forall w :: w in words ==> w != "") ==> |r| == |words|
    ensures forall i :: 0 <= i < |r| ==> IsWordInitial(words, r[i])
    ensures (forall i :: 0 <= i < |words| ==> words[i] != "") ==>
      |r| == |words| && forall i :: 0 <= i < |words| ==> r[i] == words[i][0]
    decreases |words|
  {
    if words == [] then ""
    else
      var head := if words[0] == "" then "" else [words[0][0]];
      var rest := FirstLetters(words[1..]);
      FirstLettersStep(words, head, rest);
      head + rest
  }

  /** One step of `FirstLetters`: the first word's letter (if any) in front
      of the letters of the remaining words. */
  lemma FirstLettersStep(words: seq<string>, head: string, rest: string)
    requires |words| > 0
    requires head == if words[0] == "" then "" else [words[0][0]]
    requires |rest| <= |words| - 1
    requires (forall w :: w in words[1..] ==> w != "") ==> |rest| == |words| - 1
    requires forall i :: 0 <= i < |rest| ==> IsWordInitial(words[1..], rest[i])
    requires (forall i :: 0 <= i < |words| - 1 ==> words[1..][i] != "") ==>
      forall i :: 0 <= i < |words| - 1 ==> rest[i] == words[1..][i][0]
    ensures |head + rest| <= |words|
    ensures (forall w :: w in words ==> w != "") ==> |head + rest| == |words|
    ensures forall i :: 0 <= i < |head + rest| ==> IsWordInitial(words, (head + rest)[i])
    ensures (forall i :: 0 <= i < |words| ==> words[i] != "") ==>
      |head + rest| == |words| && forall i :: 0 <= i < |words| ==> (head + rest)[i] == words[i][0]
  {
    var r := head + rest;
    assert words[0] in words;
    assert forall w :: w in words[1..] ==> w in words;
    forall i | 0 <= i < |r| ensures IsWordInitial(words, r[i]) {
      if i >= |head| {
        assert r[i] == rest[i - |head|];
        var w :| w in words[1..] && w != "" && r[i] == w[0];
        assert w in words;
      }
    }
    if forall i :: 0 <= i < |words| ==> words[i] != "" {
      assert forall w :: w in words[1..] ==> w != "";
      assert forall i :: 0 <= i < |words| - 1 ==> words[1..][i] == words[i + 1];
    }
  }

  /** `s.slice(0, n)`. */
  function Take(s: string, n: nat): (r: string)
    ensures |r| <= n && r <= s
    ensures |s| <= n ==> r == s
    ensures |s| > n ==> |r| == n
  {
    if |s| <= n then s else s[..n]
  }

  /**
   * `userInitials`: `"U"` for a missing or empty name; otherwise the first
   * letters of the space-separated words, upper-cased, at most two.
   */
  function Initials(name: Option<string>): (r: string)
    ensures name == None || name == Some("") ==> r == "U"
    ensures |r| <= 2
    ensures forall i :: 0 <= i < |r| ==> !IsLower(r[i])
  {
    match name
    case None => "U"
    case Some(n) =>
      if n == "" then "U"
      else
        var up := ToUpper(FirstLetters(Split(n, ' ')));
        var r := Take(up, 2);
        assert forall i :: 0 <= i < |r| ==> r[i] == up[i];
        r
  }

  /** Reference definition: the characters that begin a word, i.e. a non-space
      character at the start or right after a space (`atStart`). */
  function WordStarts(s: string, atStart: bool): string
    decreases |s|
  {
    if s == [] then ""
    else if s[0] == ' ' then WordStarts(s[1..], true)
    else (if atStart then [s[0]] else "") + WordStarts(s[1..], false)
  }

  /** Taking the first letter of every piece of `split(" ")` picks exactly the word-initial characters. */
  lemma {:induction false} FirstLettersOfSplit(s: string)
    ensures FirstLetters(Split(s, ' ')) == WordStarts(s, true)
    ensures FirstLetters(Split(s, ' ')[1..]) == WordStarts(s, false)
    decreases |s|
  {
    if s != [] {
      var rest := Split(s[1..], ' ');
      FirstLettersOfSplit(s[1..]);
      if s[0] == ' ' {
        var parts := [""] + rest;
        assert parts[1..] == rest;
      } else {
        var parts := [[s[0]] + rest[0]] + rest[1..];
        assert parts[1..] == rest[1..];
        assert FirstLetters(parts) == [s[0]] + FirstLetters(rest[1..]);
      }
    }
  }

  /** The initials of a non-empty name are the first two word-initial characters, upper-cased. */
  lemma InitialsAreWordStarts(n: string)
    requires n != ""
    ensures Initials(Some(n)) == Take(ToUpper(WordStarts(n, true)), 2)
  {
    FirstLettersOfSplit(n);
  }

  /** A name without spaces contributes just its first letter. */
  lemma InitialsOfSingleWord(n: string)
    requires n != "" && ' ' !in n
    ensures Initials(Some(n)) == [UpperChar(n[0])]
  {
    FirstLettersOfSplit(n);
    assert FirstLetters([n]) == [n[0]];
  }

  /** A non-empty name made only of spaces has no word, so its initials are empty rather than `"U"`. */
  lemma {:induction false} BlankNameHasNoInitials(n: string)
    requires n != "" && forall i :: 0 <= i < |n| ==> n[i] == ' '
    ensures Initials(Some(n)) == ""
  {
    FirstLettersOfSplit(n);
    NoWordStarts(n, true);
  }

  lemma {:induction false} NoWordStarts(s: string, atStart: bool)
    requires forall i :: 0 <= i < |s| ==> s[i] == ' '
    ensures WordStarts(s, atStart) == ""
    decreases |s|
  {
    if s != [] {
      NoWordStarts(s[1..], true);
    }
  }

  /** `name?.split(" ")[0]`: the text before the first space, or the whole name. */
  function ShortName(name: Option<string>): (r: Option<string>)
    ensures r.None? <==> name.None?
    ensures r.Some? ==> r.value <= name.value && ' ' !in r.value
    ensures r.Some? ==> r.value == name.value || name.value[|r.value|] == ' '
  {
    match name
    case None => None
    case Some(n) => Some(Split(n, ' ')[0])
  }
}
