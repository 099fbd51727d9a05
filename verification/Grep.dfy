/** The regular expression matcher of user/grep.c.

    A C string is a `string` without its terminating NUL; a pointer into the text is an index.
    The meaning of a pattern is given by cutting the text: a pattern is a list of items, and it
    matches from a position if the text can be cut, from there on, into one piece per item. */
module Grep {

  /** A character, a character repeated, or the end of the text. */
  datatype Item = One(c: char) | Star(c: char) | End

  /** `.` stands for any character. */
  predicate Fits(c: char, x: char) { c == '.' || c == x }

  /** `c*` binds first; a `$` is the end of the text only as the last character. */
  function Items(re: string): (items: seq<Item>) {
    if re == "" then []
    else if |re| > 1 && re[1] == '*' then [Star(re[0])] + Items(re[2..])
    else if re == "$" then [End]
    else [One(re[0])] + Items(re[1..])
  }

  ghost predicate Piece(it: Item, text: string, i: int, j: int)
    requires 0 <= i <= j <= |text|
  {
    match it
    case One(c) => j == i + 1 && Fits(c, text[i])
    case Star(c) => forall k :: i <= k < j ==> Fits(c, text[k])
    case End => i == j == |text|
  }

  /** `cuts` cuts `text` into one piece for each item, from cuts[0] to the last cut. */
  ghost predicate Cut(items: seq<Item>, text: string, cuts: seq<int>) {
    && |cuts| == |items| + 1
    && (forall i :: 0 <= i <= |items| ==> 0 <= cuts[i] <= |text|)
    && (forall i :: 0 <= i < |items| ==> PieceAt(items, text, cuts, i))
  }

  ghost predicate PieceAt(items: seq<Item>, text: string, cuts: seq<int>, i: nat)
    requires i < |items| && |cuts| == |items| + 1
    requires forall k :: 0 <= k <= |items| ==> 0 <= cuts[k] <= |text|
  {
    cuts[i] <= cuts[i + 1] && Piece(items[i], text, cuts[i], cuts[i + 1])
  }

  ghost predicate MatchesFrom(items: seq<Item>, text: string, i: int) {
    exists cuts :: Cut(items, text, cuts) && cuts[0] == i
  }

  /** What grep promises: a pattern matches if it matches from some position of the text, or, if
      it starts with `^`, if the rest of it matches from the start. */
  ghost predicate Matches(re: string, text: string) {
    if re != "" && re[0] == '^' then MatchesFrom(Items(re[1..]), text, 0)
    else exists i :: 0 <= i <= |text| && MatchesFrom(Items(re), text, i)
  }

  lemma MatchesNothing(text: string, i: int)
    ensures MatchesFrom([], text, i) <==> 0 <= i <= |text|
  {
    if 0 <= i <= |text| {
      assert Cut([], text, [i]);
    }
  }

  /** A list matches if its first item takes a piece and the rest matches from there. */
  lemma MatchesCons(it: Item, rest: seq<Item>, text: string, i: int)
    ensures MatchesFrom([it] + rest, text, i) <==>
            exists j :: 0 <= i <= j <= |text| && Piece(it, text, i, j) && MatchesFrom(rest, text, j)
  {
    var items := [it] + rest;
    if MatchesFrom(items, text, i) {
      var cuts :| Cut(items, text, cuts) && cuts[0] == i;
      assert PieceAt(items, text, cuts, 0);
      var tail := cuts[1..];
      forall k | 0 <= k < |rest| ensures PieceAt(rest, text, tail, k) {
        assert PieceAt(items, text, cuts, k + 1);
      }
      assert Cut(rest, text, tail) && tail[0] == cuts[1];
    }
    if j :| 0 <= i <= j <= |text| && Piece(it, text, i, j) && MatchesFrom(rest, text, j) {
      var tail :| Cut(rest, text, tail) && tail[0] == j;
      var cuts := [i] + tail;
      forall k | 0 <= k < |items| ensures PieceAt(items, text, cuts, k) {
        if k > 0 {
          assert PieceAt(rest, text, tail, k - 1);
        }
      }
      assert Cut(items, text, cuts);
    }
  }

  // ----- What patterns mean, character by character -----

  /** Each character of `p` is a dot or the one in the text, from position `i` on. */
  predicate FitsAt(p: string, text: string, i: int) {
    0 <= i && i + |p| <= |text| && forall k :: 0 <= k < |p| ==> p[k] == '.' || p[k] == text[i + k]
  }

  /** No star, and a dollar only before the end. */
  predicate NoSpecial(p: string) {
    forall k :: 0 <= k < |p| ==> p[k] != '*' && (p[k] == '$' ==> k < |p| - 1)
  }

  lemma OneMeans(c: char, items: seq<Item>, text: string, i: int)
    ensures MatchesFrom([One(c)] + items, text, i) <==>
            0 <= i < |text| && (c == '.' || c == text[i]) && MatchesFrom(items, text, i + 1)
  {
    MatchesCons(One(c), items, text, i);
    if 0 <= i < |text| && (c == '.' || c == text[i]) && MatchesFrom(items, text, i + 1) {
      assert Piece(One(c), text, i, i + 1);
    }
  }

  lemma {:induction false} PlainFrom(p: string, text: string, i: int)
    requires NoSpecial(p)
    ensures MatchesFrom(Items(p), text, i) <==> 0 <= i <= |text| && FitsAt(p, text, i)
  {
    if p == "" {
      MatchesNothing(text, i);
    } else {
      var rest := p[1..];
      assert forall k :: 0 <= k < |rest| ==> rest[k] == p[k + 1];
      PlainFrom(rest, text, i + 1);
      OneMeans(p[0], Items(rest), text, i);
      if FitsAt(p, text, i) {
        assert forall k :: 0 <= k < |rest| ==> rest[k] == '.' || rest[k] == text[i + 1 + k];
      }
      if 0 <= i < |text| && (p[0] == '.' || p[0] == text[i]) && FitsAt(rest, text, i + 1) {
        forall k | 0 <= k < |p| ensures p[k] == '.' || p[k] == text[i + k] {
          if k > 0 {
            assert rest[k - 1] == '.' || rest[k - 1] == text[i + 1 + (k - 1)];
          }
        }
      }
    }
  }

  /** A pattern without special characters is searched for in the text, a dot standing for any character. */
  lemma PlainPattern(p: string, text: string)
    requires NoSpecial(p) && (p != "" ==> p[0] != '^')
    ensures Matches(p, text) <==> exists i :: FitsAt(p, text, i)
  {
    forall i ensures MatchesFrom(Items(p), text, i) <==> 0 <= i <= |text| && FitsAt(p, text, i) {
      PlainFrom(p, text, i);
    }
    if i :| FitsAt(p, text, i) {
      assert 0 <= i <= |text| && MatchesFrom(Items(p), text, i);
    }
  }

  /** So a pattern of ordinary characters matches exactly the texts that it is a part of. */
  lemma LiteralPattern(p: string, text: string)
    requires forall k :: 0 <= k < |p| ==> p[k] !in ['.', '*', '$', '^']
    ensures Matches(p, text) <==> exists a, b :: text == a + p + b
  {
    PlainPattern(p, text);
    if i :| FitsAt(p, text, i) {
      assert text[i..i + |p|] == p;
      assert text == text[..i] + p + text[i + |p|..];
    }
    if a, b :| text == a + p + b {
      assert FitsAt(p, text, |a|);
    }
  }

  /** With a caret before it, it must be where the text starts. */
  lemma CaretPattern(p: string, text: string)
    requires NoSpecial(p)
    ensures Matches("^" + p, text) <==> |p| <= |text| && forall k :: 0 <= k < |p| ==> p[k] == '.' || p[k] == text[k]
  {
    assert ("^" + p)[1..] == p;
    PlainFrom(p, text, 0);
    assert FitsAt(p, text, 0) <==> |p| <= |text| && forall k :: 0 <= k < |p| ==> p[k] == '.' || p[k] == text[k];
  }

  lemma {:induction false} DollarFrom(p: string, text: string, i: int)
    requires forall k :: 0 <= k < |p| ==> p[k] != '*'
    ensures MatchesFrom(Items(p + "$"), text, i) <==> FitsAt(p, text, i) && i + |p| == |text|
  {
    var re := p + "$";
    if p == "" {
      assert re == "$";
      MatchesCons(End, [], text, i);
      MatchesNothing(text, i);
      assert [End] + [] == [End];
      if i == |text| {
        assert Piece(End, text, i, i) && MatchesFrom([], text, i);
      }
    } else {
      var rest := p[1..];
      assert re[1..] == rest + "$" && forall k :: 0 <= k < |rest| ==> rest[k] == p[k + 1];
      DollarFrom(rest, text, i + 1);
      OneMeans(p[0], Items(rest + "$"), text, i);
      if FitsAt(p, text, i) {
        assert forall k :: 0 <= k < |rest| ==> rest[k] == '.' || rest[k] == text[i + 1 + k];
      }
      if 0 <= i < |text| && (p[0] == '.' || p[0] == text[i]) && FitsAt(rest, text, i + 1) {
        forall k | 0 <= k < |p| ensures p[k] == '.' || p[k] == text[i + k] {
          if k > 0 {
            assert rest[k - 1] == '.' || rest[k - 1] == text[i + 1 + (k - 1)];
          }
        }
      }
    }
  }

  /** With a dollar after it, it must be where the text ends. */
  lemma DollarPattern(p: string, text: string)
    requires (forall k :: 0 <= k < |p| ==> p[k] != '*') && (p != "" ==> p[0] != '^')
    ensures Matches(p + "$", text) <==>
            |p| <= |text| && forall k :: 0 <= k < |p| ==> p[k] == '.' || p[k] == text[|text| - |p| + k]
  {
    var re, i := p + "$", |text| - |p|;
    forall i ensures MatchesFrom(Items(re), text, i) <==> FitsAt(p, text, i) && i + |p| == |text| {
      DollarFrom(p, text, i);
    }
    assert FitsAt(p, text, i) <==> |p| <= |text| && forall k :: 0 <= k < |p| ==> p[k] == '.' || p[k] == text[i + k];
    assert re[0] != '^';
    assert Matches(re, text) <==> exists j :: 0 <= j <= |text| && MatchesFrom(Items(re), text, j);
    if FitsAt(p, text, i) {
      assert MatchesFrom(Items(re), text, i);
    }
  }

  /** A starred character stands for any number of it, also none; starred, a dot stands for any text. */
  lemma StarPattern(c: char, re: string, text: string, i: int)
    ensures MatchesFrom(Items([c, '*'] + re), text, i) <==>
            exists j :: 0 <= i <= j <= |text| && (forall k :: i <= k < j ==> c == '.' || c == text[k]) && MatchesFrom(Items(re), text, j)
  {
    var all := [c, '*'] + re;
    assert all[2..] == re && all[1] == '*' && Items(all) == [Star(c)] + Items(re);
    MatchesCons(Star(c), Items(re), text, i);
    if MatchesFrom(Items(all), text, i) {
      var j :| 0 <= i <= j <= |text| && Piece(Star(c), text, i, j) && MatchesFrom(Items(re), text, j);
      assert forall k :: i <= k < j ==> c == '.' || c == text[k];
    }
    if j :| 0 <= i <= j <= |text| && (forall k :: i <= k < j ==> c == '.' || c == text[k]) && MatchesFrom(Items(re), text, j) {
      assert Piece(Star(c), text, i, j);
    }
  }

  // ----- The code -----

  /** matchhere: does the pattern match from position `i`? */
  method MatchHere(re: string, text: string, i: nat) returns (r: bool)
    requires i <= |text|
    ensures r <==> MatchesFrom(Items(re), text, i)
    decreases |re|, 0
  {
    if re == "" {
      MatchesNothing(text, i);
      return true;
    }
    if |re| > 1 && re[1] == '*' {
      r := MatchStar(re[0], re[2..], text, i);
      MatchesCons(Star(re[0]), Items(re[2..]), text, i);
      return;
    }
    if re[0] == '$' && |re| == 1 {
      MatchesCons(End, [], text, i);
      MatchesNothing(text, i);
      assert [End] + [] == [End];
      return i == |text|;
    }
    MatchesCons(One(re[0]), Items(re[1..]), text, i);
    if i < |text| && (re[0] == '.' || re[0] == text[i]) {
      r := MatchHere(re[1..], text, i + 1);
      assert Piece(One(re[0]), text, i, i + 1);
      return;
    }
    return false;
  }

  /** matchstar: does `c*` and then the pattern match from position `i`? */
  method MatchStar(c: char, re: string, text: string, i: nat) returns (r: bool)
    requires i <= |text|
    ensures r <==> exists j :: i <= j <= |text| && Piece(Star(c), text, i, j) && MatchesFrom(Items(re), text, j)
    decreases |re|, 1
  {
    var j := i;
    while true
      invariant i <= j <= |text|
      invariant Piece(Star(c), text, i, j)
      invariant forall k :: i <= k < j ==> !MatchesFrom(Items(re), text, k)
      decreases |text| - j
    {
      r := MatchHere(re, text, j);
      if r {
        return true;
      }
      if !(j < |text| && (text[j] == c || c == '.')) {
        return false;
      }
      j := j + 1;
    }
  }

  /** match: does the pattern match the text? */
  method Match(re: string, text: string) returns (r: bool)
    ensures r <==> Matches(re, text)
  {
    if re != "" && re[0] == '^' {
      r := MatchHere(re[1..], text, 0);
      return;
    }
    var i := 0;
    while true
      invariant 0 <= i <= |text|
      invariant forall k :: 0 <= k < i ==> !MatchesFrom(Items(re), text, k)
      decreases |text| - i
    {
      r := MatchHere(re, text, i);
      if r {
        return true;
      }
      if i == |text| {
        return false;
      }
      i := i + 1;
    }
  }
}
