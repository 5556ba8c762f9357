/** The backtracking matcher of grep.c against the language its pattern denotes. Strings are without their NUL. */
module Grep {

  /** A pattern character, alone or starred. */
  datatype Item = One(c: char) | Star(c: char)

  predicate Fits(c: char, x: char) { c == '.' || c == x }

  /** The items of a pattern (after ^), read left to right as matchhere reads them. */
  function Items(re: string): (items: seq<Item>) {
    if re == [] then []
    else if |re| >= 2 && re[1] == '*' then [Star(re[0])] + Items(re[2..])
    else if re == "$" then []
    else [One(re[0])] + Items(re[1..])
  }

  /** Does the pattern end in an unstarred $ ? */
  predicate ToEnd(re: string) {
    if re == [] then false
    else if |re| >= 2 && re[1] == '*' then ToEnd(re[2..])
    else if re == "$" then true
    else ToEnd(re[1..])
  }

  predicate AllFit(c: char, w: string) { forall i :: 0 <= i < |w| ==> Fits(c, w[i]) }

  /** w is in the language of the items: a word that falls into one piece per item. */
  ghost predicate InLang(items: seq<Item>, w: string) {
    if items == [] then w == []
    else match items[0]
         case One(c) => |w| >= 1 && Fits(c, w[0]) && InLang(items[1..], w[1..])
         case Star(c) => exists k :: 0 <= k <= |w| && AllFit(c, w[..k]) && InLang(items[1..], w[k..])
  }

  /** Some prefix of text (all of it if the pattern ends in $) is in the pattern's language. */
  ghost predicate Accepts(re: string, text: string) {
    exists j :: 0 <= j <= |text| && InLang(Items(re), text[..j]) && (ToEnd(re) ==> j == |text|)
  }

  lemma AcceptsStar(re: string, text: string)
    requires |re| >= 2 && re[1] == '*'
    ensures Accepts(re, text) <==>
      exists k :: 0 <= k <= |text| && AllFit(re[0], text[..k]) && Accepts(re[2..], text[k..])
  {
    if Accepts(re, text) { var k := StarSplits(re, text); }
    if k :| 0 <= k <= |text| && AllFit(re[0], text[..k]) && Accepts(re[2..], text[k..]) { StarJoins(re, text, k); }
  }

  lemma StarParts(re: string)
    requires |re| >= 2 && re[1] == '*'
    ensures Items(re) != [] && Items(re)[0] == Star(re[0]) && Items(re)[1..] == Items(re[2..])
    ensures ToEnd(re) == ToEnd(re[2..])
  {}

  lemma StarSplits(re: string, text: string) returns (k: nat)
    requires |re| >= 2 && re[1] == '*' && Accepts(re, text)
    ensures k <= |text| && AllFit(re[0], text[..k]) && Accepts(re[2..], text[k..])
  {
    StarParts(re);
    hide Items, ToEnd, AllFit;
    var items := Items(re);
    var j :| 0 <= j <= |text| && InLang(items, text[..j]) && (ToEnd(re) ==> j == |text|);
    k :| 0 <= k <= j && AllFit(re[0], text[..j][..k]) && InLang(items[1..], text[..j][k..]);
    assert text[..j][..k] == text[..k] && text[..j][k..] == text[k..][..j - k];
  }

  lemma StarJoins(re: string, text: string, k: nat)
    requires |re| >= 2 && re[1] == '*' && k <= |text| && AllFit(re[0], text[..k]) && Accepts(re[2..], text[k..])
    ensures Accepts(re, text)
  {
    StarParts(re);
    hide Items, ToEnd, AllFit;
    var rest := text[k..];
    var j :| 0 <= j <= |rest| && InLang(Items(re[2..]), rest[..j]) && (ToEnd(re[2..]) ==> j == |rest|);
    var w := text[..k + j];
    assert w[..k] == text[..k] && w[k..] == rest[..j];
    assert InLang(Items(re), w);
  }

  lemma AcceptsOne(re: string, text: string)
    requires re != [] && !(|re| >= 2 && re[1] == '*') && re != "$"
    ensures Accepts(re, text) <==> text != [] && Fits(re[0], text[0]) && Accepts(re[1..], text[1..])
  {
    var items := Items(re);
    assert items[1..] == Items(re[1..]);
    if Accepts(re, text) {
      var j :| 0 <= j <= |text| && InLang(items, text[..j]) && (ToEnd(re) ==> j == |text|);
      assert text[..j][1..] == text[1..][..j - 1];
      assert Accepts(re[1..], text[1..]);
    }
    if text != [] && Fits(re[0], text[0]) && Accepts(re[1..], text[1..]) {
      var j :| 0 <= j <= |text[1..]| && InLang(Items(re[1..]), text[1..][..j]) && (ToEnd(re[1..]) ==> j == |text[1..]|);
      assert text[..j + 1][1..] == text[1..][..j];
      assert InLang(items, text[..j + 1]);
    }
  }

  lemma AcceptsEnds(text: string)
    ensures Accepts("", text)
    ensures Accepts("$", text) <==> text == []
  {
    assert InLang(Items(""), text[..0]);
    assert Items("$") == [] && ToEnd("$");
    if text == [] { assert InLang(Items("$"), text[..0]); }
  }

  /** matchhere: some prefix of text is in the pattern's language. */
  method MatchHere(re: string, text: string) returns (r: bool)
    ensures r <==> Accepts(re, text)
    decreases |re|, |text|, 0
  {
    AcceptsEnds(text);
    if re == [] { return true; }
    if |re| >= 2 && re[1] == '*' {
      AcceptsStar(re, text);
      r := MatchStar(re[0], re[2..], text);
      return;
    }
    if re == "$" { return text == []; }
    AcceptsOne(re, text);
    if text != [] && (re[0] == '.' || re[0] == text[0]) {
      r := MatchHere(re[1..], text[1..]);
      return;
    }
    return false;
  }

  /** matchstar: c*re at the beginning of text. */
  method MatchStar(c: char, re: string, text0: string) returns (r: bool)
    ensures r <==> exists k :: 0 <= k <= |text0| && AllFit(c, text0[..k]) && Accepts(re, text0[k..])
    decreases |re|, |text0|, 1
  {
    var text := text0;
    ghost var n := 0;
    while true
      invariant n <= |text0| && text == text0[n..] && AllFit(c, text0[..n])
      invariant forall k :: 0 <= k < n ==> !Accepts(re, text0[k..])
      decreases |text|
    {
      r := MatchHere(re, text);
      if r { return true; }
      if !(text != [] && (text[0] == c || c == '.')) {
        forall k | 0 <= k <= |text0| && AllFit(c, text0[..k]) ensures !Accepts(re, text0[k..]) {
          assert k <= n || Fits(c, text0[..k][n]);
        }
        return false;
      }
      assert text0[..n + 1] == text0[..n] + [text0[n]];
      text := text[1..];
      n := n + 1;
    }
  }

  /** The pattern without its leading ^. */
  function Body(re: string): (b: string) { if re != [] && re[0] == '^' then re[1..] else re }

  /** Some substring of text is in the pattern's language; it starts at the beginning if the pattern starts with ^
      and reaches the end if the pattern ends in $. */
  ghost predicate Matches(re: string, text: string) {
    exists i, j :: 0 <= i <= j <= |text| && (re != [] && re[0] == '^' ==> i == 0) && (ToEnd(Body(re)) ==> j == |text|)
                && InLang(Items(Body(re)), text[i..j])
  }

  lemma MatchesAt(re: string, text: string)
    ensures Matches(re, text) <==>
      exists i :: 0 <= i <= |text| && (re != [] && re[0] == '^' ==> i == 0) && Accepts(Body(re), text[i..])
  {
    var b := Body(re);
    if Matches(re, text) {
      var i, j :| 0 <= i <= j <= |text| && (re != [] && re[0] == '^' ==> i == 0)
          && (ToEnd(b) ==> j == |text|) && InLang(Items(b), text[i..j]);
      assert text[i..][..j - i] == text[i..j];
      assert Accepts(b, text[i..]);
    }
    if i :| 0 <= i <= |text| && (re != [] && re[0] == '^' ==> i == 0) && Accepts(b, text[i..]) {
      var j :| 0 <= j <= |text[i..]| && InLang(Items(b), text[i..][..j]) && (ToEnd(b) ==> j == |text[i..]|);
      assert text[i..][..j] == text[i..i + j];
    }
  }

  /** match: search for re anywhere in text. */
  method Match(re: string, text0: string) returns (r: bool)
    ensures r <==> Matches(re, text0)
  {
    MatchesAt(re, text0);
    if re != [] && re[0] == '^' {
      r := MatchHere(re[1..], text0);
      assert text0[0..] == text0;
      return;
    }
    var text := text0;
    ghost var n := 0;
    while true  // must look at the empty string
      invariant n <= |text0| && text == text0[n..]
      invariant forall i :: 0 <= i < n ==> !Accepts(re, text0[i..])
      decreases |text|
    {
      r := MatchHere(re, text);
      if r { return true; }
      if text == [] { return false; }
      text := text[1..];
      n := n + 1;
    }
  }
}
