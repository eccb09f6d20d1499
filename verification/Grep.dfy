/** The matcher of user/grep.c: match, matchhere and matchstar.

    A C string is the sequence of its characters before the NUL. */
module Grep {

  type CString = s: string | '\0' !in s witness ""

  /** Character `i` of a C string; the NUL is there to be read. */
  function CharAt(s: CString, i: nat): char {
    if i < |s| then s[i] else '\0'
  }

  // ----- what a pattern means

  datatype Item = One(c: char) | Star(c: char)

  /** The items of a pattern that is not anchored on the left, and whether a final '$'
      anchors it on the right. */
  datatype Pattern = Pattern(items: seq<Item>, atEnd: bool)

  function Read(re: CString): Pattern {
    if re == "" then Pattern([], false)
    else if CharAt(re, 1) == '*' then Prefixed(Star(re[0]), Read(re[2..]))
    else if re == "$" then Pattern([], true)
    else Prefixed(One(re[0]), Read(re[1..]))
  }

  function Prefixed(i: Item, p: Pattern): Pattern {
    p.(items := [i] + p.items)
  }

  predicate Fits(c: char, x: char) {
    c == '.' || c == x
  }

  predicate AllFit(c: char, w: string) {
    forall i :: 0 <= i < |w| ==> Fits(c, w[i])
  }

  /** The language of a sequence of items. */
  predicate InLanguage(items: seq<Item>, w: string) {
    if items == [] then w == ""
    else match items[0]
      case One(c) => w != "" && Fits(c, w[0]) && InLanguage(items[1..], w[1..])
      case Star(c) => exists k :: 0 <= k <= |w| && AllFit(c, w[..k]) && InLanguage(items[1..], w[k..])
  }

  /** The first `e` characters of `text` are what `p` asks for. */
  predicate Accepts(p: Pattern, text: string, e: nat) {
    e <= |text| && InLanguage(p.items, text[..e]) && (p.atEnd ==> e == |text|)
  }

  /** Some beginning of `text` is. */
  predicate Begins(p: Pattern, text: string) {
    exists e: nat :: e <= |text| && Accepts(p, text, e)
  }

  /** Some part of `text` is; the very beginning when the pattern starts with '^'. */
  predicate Matches(re: CString, text: string) {
    if CharAt(re, 0) == '^' then Begins(Read(re[1..]), text)
    else exists i :: 0 <= i <= |text| && Begins(Read(re), text[i..])
  }

  // ----- how the meaning unfolds

  lemma EmptyBegins(atEnd: bool, text: string)
    ensures Begins(Pattern([], atEnd), text) <==> !atEnd || text == ""
  {
    if !atEnd || text == "" {
      assert Accepts(Pattern([], atEnd), text, 0);
    }
  }

  lemma OneBegins(c: char, p: Pattern, text: string)
    ensures Begins(Prefixed(One(c), p), text) <==> text != "" && Fits(c, text[0]) && Begins(p, text[1..])
  {
    var q := Prefixed(One(c), p);
    assert q.items[1..] == p.items;
    if Begins(q, text) {
      var e: nat :| e <= |text| && Accepts(q, text, e);
      assert text[..e][1..] == text[1..][..e - 1];
      assert Accepts(p, text[1..], e - 1);
    }
    if text != "" && Fits(c, text[0]) && Begins(p, text[1..]) {
      var e: nat :| e <= |text[1..]| && Accepts(p, text[1..], e);
      assert text[..e + 1][1..] == text[1..][..e];
      assert Accepts(q, text, e + 1);
    }
  }

  predicate StarBegins(c: char, p: Pattern, text: string) {
    exists k :: 0 <= k <= |text| && AllFit(c, text[..k]) && Begins(p, text[k..])
  }

  lemma StarMeaning(c: char, p: Pattern, text: string)
    ensures Begins(Prefixed(Star(c), p), text) <==> StarBegins(c, p, text)
  {
    var q := Prefixed(Star(c), p);
    assert q.items[1..] == p.items;
    if Begins(q, text) {
      var e: nat :| e <= |text| && Accepts(q, text, e);
      var k :| 0 <= k <= e && AllFit(c, text[..e][..k]) && InLanguage(p.items, text[..e][k..]);
      assert text[..e][..k] == text[..k] && text[..e][k..] == text[k..][..e - k];
      assert Accepts(p, text[k..], e - k);
    }
    if StarBegins(c, p, text) {
      var k :| 0 <= k <= |text| && AllFit(c, text[..k]) && Begins(p, text[k..]);
      var e: nat :| e <= |text[k..]| && Accepts(p, text[k..], e);
      assert text[..k + e][..k] == text[..k] && text[..k + e][k..] == text[k..][..e];
      assert Accepts(q, text, k + e);
    }
  }

  // ----- the matcher

  /** Decides whether some part of the text is in the pattern's language, trying every place. */
  method Match(re: CString, text: CString) returns (found: bool)
    ensures found <==> Matches(re, text)
  {
    if CharAt(re, 0) == '^' {
      found := MatchHere(re[1..], text);
      return;
    }
    var i := 0;
    while true
      invariant 0 <= i <= |text|
      invariant forall j :: 0 <= j < i ==> !Begins(Read(re), text[j..])
      decreases |text| - i
    {
      found := MatchHere(re, text[i..]);
      if found {
        return;
      }
      if CharAt(text, i) == '\0' {
        return;
      }
      i := i + 1;
    }
  }

  /** Decides whether some beginning of the text is in the language of the items from `re` on. */
  method MatchHere(re: CString, text: CString) returns (found: bool)
    ensures found <==> Begins(Read(re), text)
    decreases |re|, |text|, 0
  {
    if CharAt(re, 0) == '\0' {
      EmptyBegins(false, text);
      return true;
    }
    if CharAt(re, 1) == '*' {
      StarMeaning(re[0], Read(re[2..]), text);
      found := MatchStar(re[0], re[2..], text);
      return;
    }
    if re[0] == '$' && CharAt(re, 1) == '\0' {
      EmptyBegins(true, text);
      return CharAt(text, 0) == '\0';
    }
    OneBegins(re[0], Read(re[1..]), text);
    if CharAt(text, 0) != '\0' && (re[0] == '.' || re[0] == text[0]) {
      found := MatchHere(re[1..], text[1..]);
      return;
    }
    return false;
  }

  /** The same when the first item is any number of `c`s: tries the shortest run first. */
  method MatchStar(c: char, re: CString, text: CString) returns (found: bool)
    ensures found <==> StarBegins(c, Read(re), text)
    decreases |re|, |text|, 1
  {
    var k := 0;
    while true
      invariant 0 <= k <= |text| && AllFit(c, text[..k])
      invariant forall j :: 0 <= j < k ==> !Begins(Read(re), text[j..])
      decreases |text| - k
    {
      found := MatchHere(re, text[k..]);
      if found {
        return;
      }
      if CharAt(text, k) == '\0' || !(text[k] == c || c == '.') {
        forall j | k < j <= |text|
          ensures !AllFit(c, text[..j])
        {
          assert text[..j][k] == text[k];
        }
        return;
      }
      k := k + 1;
    }
  }

  // ----- patterns without operators

  predicate Plain(re: CString) {
    forall i :: 0 <= i < |re| ==> re[i] !in {'^', '.', '*', '$'}
  }

  predicate Contains(text: string, w: string) {
    exists i :: 0 <= i <= |text| && w <= text[i..]
  }

  lemma {:induction false} PlainBegins(re: CString, text: string)
    requires Plain(re)
    ensures Begins(Read(re), text) <==> re <= text
  {
    if re == "" {
      EmptyBegins(false, text);
    } else {
      assert re[0] != '$' && CharAt(re, 1) != '*';
      OneBegins(re[0], Read(re[1..]), text);
      assert re == [re[0]] + re[1..];
      if text != "" {
        PlainBegins(re[1..], text[1..]);
        assert text == [text[0]] + text[1..];
      }
    }
  }

  /** A pattern without operators is found exactly where it stands in the text. */
  lemma PlainMatches(re: CString, text: string)
    requires Plain(re)
    ensures Matches(re, text) <==> Contains(text, re)
  {
    assert CharAt(re, 0) != '^';
    forall i | 0 <= i <= |text|
      ensures Begins(Read(re), text[i..]) <==> re <= text[i..]
    {
      PlainBegins(re, text[i..]);
    }
  }
}
