/**
 The matcher of grep.c (The Practice of Programming, chapter 9).  A C string is a sequence; its
 end stands for the terminating NUL.
 */
module Grep {
  // ---------------------------------------------------------------- what a pattern denotes

  datatype Item = One(c: char) | Star(c: char)

  predicate Fits(c: char, ch: char) { c == '.' || c == ch }

  /** The strings an item stands for: one fitting character, or any number of them. */
  predicate Piece(item: Item, s: string) {
    match item
    case One(c) => |s| == 1 && Fits(c, s[0])
    case Star(c) => forall i :: 0 <= i < |s| ==> Fits(c, s[i])
  }

  /** The items of a pattern in order, up to a final '$'. */
  function Items(re: string): seq<Item> {
    if re == "" || re == "$" then []
    else if |re| >= 2 && re[1] == '*' then [Star(re[0])] + Items(re[2..])
    else [One(re[0])] + Items(re[1..])
  }

  /** The pattern ends in a '$' that is not starred. */
  predicate ToEnd(re: string) {
    if re == "" then false
    else if |re| >= 2 && re[1] == '*' then ToEnd(re[2..])
    else re == "$" || ToEnd(re[1..])
  }

  /** s is a concatenation of pieces, one for each item. */
  ghost predicate Denotes(items: seq<Item>, s: string) {
    if items == [] then s == ""
    else exists k :: 0 <= k <= |s| && Piece(items[0], s[..k]) && Denotes(items[1..], s[k..])
  }

  /** Some prefix of text, the whole of it if the pattern says so, is in the language of re. */
  ghost predicate Prefix(re: string, text: string) {
    exists j :: PrefixAt(re, text, j)
  }

  ghost predicate PrefixAt(re: string, text: string, j: int) {
    0 <= j <= |text| && Denotes(Items(re), text[..j]) && (ToEnd(re) ==> j == |text|)
  }

  /** Some substring of text, starting at 0 after '^', is in the language of the pattern. */
  ghost predicate Matches(re: string, text: string) {
    if re != "" && re[0] == '^' then Prefix(re[1..], text)
    else exists i :: 0 <= i <= |text| && Prefix(re, text[i..])
  }

  // ---------------------------------------------------------------- one item at a time

  lemma PrefixEmpty(text: string)
    ensures Prefix("", text)
    ensures Prefix("$", text) <==> text == ""
  {
    assert PrefixAt("", text, 0);
    if text == "" { assert PrefixAt("$", text, 0); }
  }

  lemma PrefixOne(re: string, text: string)
    requires re != "" && re != "$" && !(|re| >= 2 && re[1] == '*')
    ensures Prefix(re, text) <==> text != "" && Fits(re[0], text[0]) && Prefix(re[1..], text[1..])
  {
    if Prefix(re, text) {
      var j :| PrefixAt(re, text, j);
      var s := text[..j];
      var k :| 0 <= k <= |s| && Piece(Items(re)[0], s[..k]) && Denotes(Items(re)[1..], s[k..]);
      assert Items(re)[1..] == Items(re[1..]);
      assert s[1..] == text[1..][..j - 1];
      assert PrefixAt(re[1..], text[1..], j - 1);
    }
    if text != "" && Fits(re[0], text[0]) && Prefix(re[1..], text[1..]) {
      var j :| PrefixAt(re[1..], text[1..], j);
      var s := text[..j + 1];
      assert Items(re)[1..] == Items(re[1..]);
      assert s[1..] == text[1..][..j];
      assert Piece(Items(re)[0], s[..1]) && Denotes(Items(re)[1..], s[1..]);
      assert PrefixAt(re, text, j + 1);
    }
  }

  /** All of the first k characters fit c, and the rest of the pattern matches behind them. */
  ghost predicate StarAt(c: char, re: string, text: string, k: int) {
    0 <= k <= |text| && Piece(Star(c), text[..k]) && Prefix(re, text[k..])
  }

  lemma StarStops(c: char, re: string, text: string, t: nat)
    requires t <= |text| && (t == |text| || !Fits(c, text[t]))
    ensures forall k :: StarAt(c, re, text, k) ==> k <= t
  {
    forall k | StarAt(c, re, text, k)
      ensures k <= t
    {
      assert 0 <= k <= |text| && forall i :: 0 <= i < k ==> Fits(c, text[..k][i]) && text[..k][i] == text[i];
    }
  }

  lemma PrefixStar(re: string, text: string)
    requires |re| >= 2 && re[1] == '*'
    ensures Prefix(re, text) <==> exists k :: StarAt(re[0], re[2..], text, k)
  {
    assert Items(re)[1..] == Items(re[2..]);
    if Prefix(re, text) {
      var j :| PrefixAt(re, text, j);
      var s := text[..j];
      var k :| 0 <= k <= |s| && Piece(Items(re)[0], s[..k]) && Denotes(Items(re)[1..], s[k..]);
      assert s[k..] == text[k..][..j - k] && s[..k] == text[..k];
      assert PrefixAt(re[2..], text[k..], j - k);
      assert StarAt(re[0], re[2..], text, k);
    }
    if exists k :: StarAt(re[0], re[2..], text, k) {
      var k :| StarAt(re[0], re[2..], text, k);
      var j :| PrefixAt(re[2..], text[k..], j);
      var s := text[..k + j];
      assert s[k..] == text[k..][..j] && s[..k] == text[..k];
      assert Piece(Items(re)[0], s[..k]) && Denotes(Items(re)[1..], s[k..]);
      assert PrefixAt(re, text, k + j);
    }
  }

  // ---------------------------------------------------------------- patterns without special characters

  predicate Literal(re: string) { '.' !in re && '*' !in re && '^' !in re && '$' !in re }

  /** A dot for one character, whatever it is. */
  lemma AnyCharacter(text: string)
    ensures Prefix(".", text) <==> text != ""
  {
    PrefixOne(".", text);
    if text != "" { PrefixEmpty(text[1..]); }
    assert "."[1..] == "";
  }

  lemma {:induction false} LiteralPrefix(re: string, text: string)
    requires Literal(re)
    ensures Prefix(re, text) <==> re <= text
    ensures Prefix(re + "$", text) <==> text == re
    decreases |re|
  {
    var end := re + "$";
    if re == "" {
      assert end == "$";
      PrefixEmpty(text);
    } else {
      assert re[0] in re && end[0] == re[0] && end[1..] == re[1..] + "$";
      assert |re| >= 2 ==> re[1] in re;
      PrefixOne(re, text);
      PrefixOne(end, text);
      if text != "" {
        LiteralPrefix(re[1..], text[1..]);
        assert re <= text <==> re[0] == text[0] && re[1..] <= text[1..] by {
          if re[0] == text[0] && re[1..] <= text[1..] { assert re == [re[0]] + re[1..] && text == [text[0]] + text[1..]; }
        }
        assert text == re <==> re[0] == text[0] && text[1..] == re[1..] by {
          assert re == [re[0]] + re[1..] && text == [text[0]] + text[1..];
        }
      }
    }
  }

  /** A literal is found exactly as a substring; after '^' as a prefix, before '$' as a suffix, between both as the text. */
  lemma LiteralMatches(re: string, text: string)
    requires Literal(re)
    ensures Matches(re, text) <==> exists i :: 0 <= i <= |text| && re <= text[i..]
    ensures Matches("^" + re, text) <==> re <= text
    ensures Matches(re + "$", text) <==> exists i :: 0 <= i <= |text| && re == text[i..]
    ensures Matches("^" + re + "$", text) <==> text == re
  {
    hide Prefix;
    assert ("^" + re)[1..] == re && ("^" + re + "$")[1..] == re + "$";
    assert re != "" ==> re[0] in re;
    LiteralPrefix(re, text);
    forall i | 0 <= i <= |text|
      ensures Prefix(re, text[i..]) <==> re <= text[i..]
      ensures Prefix(re + "$", text[i..]) <==> text[i..] == re
    {
      LiteralPrefix(re, text[i..]);
    }
  }

  // ---------------------------------------------------------------- the matcher

  method Match(re: string, text: string) returns (found: bool)
    ensures found <==> Matches(re, text)
  {
    if re != "" && re[0] == '^' {
      found := MatchHere(re[1..], text);
      return;
    }
    var t := 0;
    while true
      invariant 0 <= t <= |text| && forall i :: 0 <= i < t ==> !Prefix(re, text[i..])
      decreases |text| - t
    {
      var here := MatchHere(re, text[t..]);
      if here {
        return true;
      }
      if t == |text| {
        return false;
      }
      t := t + 1;
    }
  }

  /** re at the beginning of text. */
  method MatchHere(re: string, text: string) returns (found: bool)
    ensures found <==> Prefix(re, text)
    decreases |re|, 0
  {
    PrefixEmpty(text);
    if re == "" {
      return true;
    }
    if |re| >= 2 && re[1] == '*' {
      PrefixStar(re, text);
      found := MatchStar(re[0], re[2..], text);
      return;
    }
    if re == "$" {
      return text == "";
    }
    PrefixOne(re, text);
    if text != "" && (re[0] == '.' || re[0] == text[0]) {
      found := MatchHere(re[1..], text[1..]);
      return;
    }
    return false;
  }

  /** c*re at the beginning of text. */
  method MatchStar(c: char, re: string, text: string) returns (found: bool)
    ensures found <==> exists k :: StarAt(c, re, text, k)
    decreases |re|, 1
  {
    var t := 0;
    while true
      invariant 0 <= t <= |text| && (forall i :: 0 <= i < t ==> Fits(c, text[i]))
      invariant forall k :: StarAt(c, re, text, k) ==> k >= t
      decreases |text| - t
    {
      var here := MatchHere(re, text[t..]);
      if here {
        assert StarAt(c, re, text, t);
        return true;
      }
      if t == |text| || !(text[t] == c || c == '.') {
        StarStops(c, re, text, t);
        return false;
      }
      t := t + 1;
    }
  }
}
