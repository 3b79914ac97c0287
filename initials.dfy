/** Avatar initials, as the sidebar and the profile dialog compute them:
    name.split(" ").map(n => n[0]).join("").toUpperCase(). */
module Initials {
  import opened Text

  /** charAt(0): the first character, or nothing for the empty string. */
  function FirstChar(s: string): (r: string)
    ensures |r| <= 1
    ensures r == [] <==> s == []
    ensures r != [] ==> r[0] == s[0]
  {
    if s == [] then [] else [s[0]]
  }

  /** The first character of every word, joined; an empty word's `n[0]` is
      undefined, which join renders as nothing. */
  function Heads(words: seq<string>): (r: string)
    ensures |r| <= |words|
  {
    if words == [] then [] else FirstChar(words[0]) + Heads(words[1..])
  }

  /** Reference definition: the characters of `s` that are not spaces and
      start a word (come first, or right after a space). */
  function WordStarts(s: string, afterSpace: bool): (r: string)
    ensures forall k :: 0 <= k < |r| ==> r[k] != ' ' && r[k] in s
  {
    if s == [] then []
    else
      var rest := WordStarts(s[1..], s[0] == ' ');
      assert forall c :: c in rest ==> c in s;
      (if s[0] != ' ' && afterSpace then [s[0]] else []) + rest
  }

  /** The heads of the words of a split are the word starts of the string
      (dropping the first part when it continues a word begun earlier). */
  lemma {:induction false} HeadsOfSplit(s: string, afterSpace: bool)
    ensures WordStarts(s, afterSpace) == Heads(if afterSpace then Split(s, ' ') else Split(s, ' ')[1..])
  {
    if s != [] {
      var rest := Split(s[1..], ' ');
      HeadsOfSplit(s[1..], s[0] == ' ');
      if s[0] == ' ' {
        assert Split(s, ' ') == [""] + rest;
        assert Heads([""] + rest) == Heads(rest) by {
          assert ([""] + rest)[1..] == rest;
        }
      } else {
        assert Split(s, ' ') == [[s[0]] + rest[0]] + rest[1..];
        assert Split(s, ' ')[1..] == rest[1..];
        if afterSpace {
          assert Heads(Split(s, ' ')) == [s[0]] + Heads(rest[1..]);
        }
      }
    }
  }

  /** The initials of a name: its word starts, upper-cased; never more
      characters than the name has words. */
  function NameInitials(name: string): (r: string)
    ensures r == Upper(WordStarts(name, true))
    ensures |r| <= Occurrences(name, ' ') + 1
  {
    HeadsOfSplit(name, true);
    Upper(Heads(Split(name, ' ')))
  }

  /** A name made of spaces only has no initials. */
  lemma BlankNameHasNoInitials(n: nat)
    ensures NameInitials(Repeat(' ', n)) == ""
  {
    BlankWordStarts(Repeat(' ', n), true);
  }

  lemma {:induction false} BlankWordStarts(s: string, afterSpace: bool)
    requires forall k :: 0 <= k < |s| ==> s[k] == ' '
    ensures WordStarts(s, afterSpace) == []
  {
    if s != [] {
      BlankWordStarts(s[1..], true);
    }
  }

  /** A one-word name gives its first letter, upper-cased. */
  lemma OneWordInitial(name: string)
    requires name != [] && ' ' !in name
    ensures NameInitials(name) == [UpperChar(name[0])]
  {
    NoSpaceWordStarts(name[1..]);
  }

  lemma {:induction false} NoSpaceWordStarts(s: string)
    requires ' ' !in s
    ensures WordStarts(s, false) == []
  {
    if s != [] {
      assert s[0] != ' ';
      assert ' ' !in s[1..] by {
        assert forall c :: c in s[1..] ==> c in s;
      }
      NoSpaceWordStarts(s[1..]);
    }
  }
}
