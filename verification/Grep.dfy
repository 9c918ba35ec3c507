/** The regular expression matcher of `grep`. Patterns and texts are C strings without their final
    zero byte. */
module Grep {

  // ---------------------------------------------------------------- what a pattern means

  /** A character or dot, or one of these starred. */
  datatype Elem = One(c: char) | Star(c: char)

  /** The elements of a pattern, and whether it ends in the anchor `$`. */
  datatype Pattern = Pattern(elems: seq<Elem>, atEnd: bool)

  predicate Fits(c: char, x: char)
  {
    c == '.' || c == x
  }

  predicate AllFit(c: char, w: seq<char>)
  {
    forall i :: 0 <= i < |w| ==> Fits(c, w[i])
  }

  function Parse(re: seq<char>): (p: Pattern)
  {
    if re == [] then Pattern([], false)
    else if |re| > 1 && re[1] == '*' then
      var p := Parse(re[2..]);
      Pattern([Star(re[0])] + p.elems, p.atEnd)
    else if re == ['$'] then Pattern([], true)
    else
      var p := Parse(re[1..]);
      Pattern([One(re[0])] + p.elems, p.atEnd)
  }

  /** The words of one element. */
  predicate InElem(e: Elem, w: seq<char>)
  {
    match e
    case One(c) => |w| == 1 && Fits(c, w[0])
    case Star(c) => AllFit(c, w)
  }

  function Concat(parts: seq<seq<char>>): (w: seq<char>)
  {
    if parts == [] then [] else parts[0] + Concat(parts[1..])
  }

  ghost predicate Spells(es: seq<Elem>, parts: seq<seq<char>>, w: seq<char>)
  {
    |parts| == |es| && Concat(parts) == w && forall i :: 0 <= i < |es| ==> InElem(es[i], parts[i])
  }

  /** The language of the elements: one word of each, in order. */
  ghost predicate InLanguage(es: seq<Elem>, w: seq<char>)
  {
    exists parts :: Spells(es, parts, w)
  }

  ghost predicate BeginsWith(p: Pattern, text: seq<char>, n: nat)
  {
    n <= |text| && InLanguage(p.elems, text[..n]) && (p.atEnd ==> n == |text|)
  }

  /** The text begins with a word of the pattern, and is that word if the pattern is anchored. */
  ghost predicate Begins(re: seq<char>, text: seq<char>)
  {
    exists n :: BeginsWith(Parse(re), text, n)
  }

  /** Some place in the text begins such a word; after a leading `^`, its start does. */
  ghost predicate Matches(re: seq<char>, text: seq<char>)
  {
    if re != [] && re[0] == '^' then Begins(re[1..], text)
    else exists i :: 0 <= i <= |text| && Begins(re, text[i..])
  }

  // ---------------------------------------------------------------- unfolding the meaning

  lemma EmptyLanguage(w: seq<char>)
    ensures InLanguage([], w) <==> w == []
  {
    if w == [] { assert Spells([], [], w); }
  }

  lemma SplitLanguage(e: Elem, es: seq<Elem>, w: seq<char>)
    requires InLanguage([e] + es, w)
    ensures exists k :: 0 <= k <= |w| && InElem(e, w[..k]) && InLanguage(es, w[k..])
  {
    var parts :| Spells([e] + es, parts, w);
    var k := |parts[0]|;
    assert w == parts[0] + Concat(parts[1..]);
    assert w[..k] == parts[0] && w[k..] == Concat(parts[1..]);
    assert ([e] + es)[0] == e;
    assert forall i :: 0 <= i < |es| ==> ([e] + es)[i + 1] == es[i] && parts[1..][i] == parts[i + 1];
    assert Spells(es, parts[1..], w[k..]);
  }

  lemma JoinLanguage(e: Elem, es: seq<Elem>, w: seq<char>, k: nat)
    requires k <= |w| && InElem(e, w[..k]) && InLanguage(es, w[k..])
    ensures InLanguage([e] + es, w)
  {
    var parts :| Spells(es, parts, w[k..]);
    var all := [w[..k]] + parts;
    assert all[1..] == parts && w == w[..k] + w[k..];
    assert Spells([e] + es, all, w);
  }

  lemma BeginsEmpty(text: seq<char>)
    ensures Begins([], text)
  {
    EmptyLanguage(text[..0]);
    assert BeginsWith(Parse([]), text, 0);
  }

  lemma BeginsAnchor(text: seq<char>)
    ensures Begins(['$'], text) <==> text == []
  {
    var p := Parse(['$']);
    if text == [] {
      EmptyLanguage(text[..0]);
      assert BeginsWith(p, text, 0);
    }
    if Begins(['$'], text) {
      var n: nat :| BeginsWith(p, text, n);
      EmptyLanguage(text[..n]);
    }
  }

  lemma Slices(text: seq<char>, k: nat, n: nat)
    requires k <= n <= |text|
    ensures text[..n][..k] == text[..k] && text[..n][k..] == text[k..][..n - k]
  {
  }

  /** An element and then the rest: the text begins with both exactly when it has a word of the
      element behind which it begins with the rest. */
  lemma BeginsElem(e: Elem, rest: seq<char>, re: seq<char>, text: seq<char>)
    requires Parse(re) == Pattern([e] + Parse(rest).elems, Parse(rest).atEnd)
    ensures Begins(re, text) <==> exists k :: 0 <= k <= |text| && InElem(e, text[..k]) && Begins(rest, text[k..])
  {
    hide Parse, InLanguage;
    var p, q := Parse(re), Parse(rest);
    if Begins(re, text) {
      var n: nat :| BeginsWith(p, text, n);
      SplitLanguage(e, q.elems, text[..n]);
      var k :| 0 <= k <= n && InElem(e, text[..n][..k]) && InLanguage(q.elems, text[..n][k..]);
      Slices(text, k, n);
      assert BeginsWith(q, text[k..], n - k);
    }
    if exists k :: 0 <= k <= |text| && InElem(e, text[..k]) && Begins(rest, text[k..]) {
      var k :| 0 <= k <= |text| && InElem(e, text[..k]) && Begins(rest, text[k..]);
      var m: nat :| BeginsWith(q, text[k..], m);
      Slices(text, k, k + m);
      JoinLanguage(e, q.elems, text[..k + m], k);
      assert BeginsWith(p, text, k + m);
    }
  }

  lemma BeginsOne(re: seq<char>, text: seq<char>)
    requires re != [] && re != ['$'] && !(|re| > 1 && re[1] == '*')
    ensures Begins(re, text) <==> text != [] && Fits(re[0], text[0]) && Begins(re[1..], text[1..])
  {
    BeginsElem(One(re[0]), re[1..], re, text);
    hide Begins;
    if text != [] && Fits(re[0], text[0]) && Begins(re[1..], text[1..]) {
      assert InElem(One(re[0]), text[..1]);
    }
  }

  /** A starred element may stop after any prefix that fits. */
  ghost predicate StarFrom(c: char, rest: seq<char>, text: seq<char>, i: nat)
  {
    exists k :: i <= k <= |text| && AllFit(c, text[..k]) && Begins(rest, text[k..])
  }

  lemma BeginsStar(re: seq<char>, text: seq<char>)
    requires |re| > 1 && re[1] == '*'
    ensures Begins(re, text) <==> StarFrom(re[0], re[2..], text, 0)
  {
    BeginsElem(Star(re[0]), re[2..], re, text);
  }

  // ---------------------------------------------------------------- the code

  method MatchHere(re: seq<char>, text: seq<char>) returns (r: bool)
    ensures r <==> Begins(re, text)
    decreases |re|, 0
  {
    if re == [] {
      BeginsEmpty(text);
      return true;
    }
    if |re| > 1 && re[1] == '*' {
      BeginsStar(re, text);
      r := MatchStar(re[0], re[2..], text);
      return;
    }
    if re[0] == '$' && |re| == 1 {
      assert re == ['$'];
      BeginsAnchor(text);
      return text == [];
    }
    BeginsOne(re, text);
    if text != [] && (re[0] == '.' || re[0] == text[0]) {
      r := MatchHere(re[1..], text[1..]);
      return;
    }
    return false;
  }

  method MatchStar(c: char, re: seq<char>, text: seq<char>) returns (r: bool)
    ensures r <==> StarFrom(c, re, text, 0)
    decreases |re|, 1
  {
    var i := 0;
    while true
      invariant 0 <= i <= |text| && AllFit(c, text[..i])
      invariant StarFrom(c, re, text, 0) <==> StarFrom(c, re, text, i)
      decreases |text| - i
    {
      var here := MatchHere(re, text[i..]);
      if here {
        return true;
      }
      if i == |text| || !(text[i] == c || c == '.') {
        assert forall k :: i < k <= |text| ==> text[..k][i] == text[i];
        return false;
      }
      assert text[..i + 1] == text[..i] + [text[i]];
      i := i + 1;
    }
  }

  method Match(re: seq<char>, text: seq<char>) returns (r: bool)
    ensures r <==> Matches(re, text)
  {
    if re != [] && re[0] == '^' {
      r := MatchHere(re[1..], text);
      return;
    }
    var i := 0;
    while true
      invariant 0 <= i <= |text| && forall k :: 0 <= k < i ==> !Begins(re, text[k..])
      decreases |text| - i
    {
      var here := MatchHere(re, text[i..]);
      if here {
        return true;
      }
      if i == |text| {
        return false;
      }
      i := i + 1;
    }
  }

  // ---------------------------------------------------------------- simple patterns

  predicate Plain(re: seq<char>)
  {
    forall i :: 0 <= i < |re| ==> re[i] != '^' && re[i] != '$' && re[i] != '.' && re[i] != '*'
  }

  lemma {:induction false} PlainBegins(re: seq<char>, text: seq<char>)
    requires Plain(re)
    ensures Begins(re, text) <==> re <= text
  {
    hide Begins;
    if re == [] {
      BeginsEmpty(text);
    } else {
      assert re[0] != '$' && (|re| > 1 ==> re[1] != '*');
      BeginsOne(re, text);
      if text != [] {
        PlainBegins(re[1..], text[1..]);
        assert re == [re[0]] + re[1..] && text == [text[0]] + text[1..];
      }
    }
  }

  /** A pattern of ordinary characters is looked for as it stands. */
  lemma PlainIsSubstring(re: seq<char>, text: seq<char>)
    requires Plain(re)
    ensures Matches(re, text) <==> exists i :: 0 <= i <= |text| && re <= text[i..]
  {
    hide Begins;
    forall i | 0 <= i <= |text|
      ensures Begins(re, text[i..]) <==> re <= text[i..]
    {
      PlainBegins(re, text[i..]);
    }
  }

  lemma {:induction false} DotsBegin(re: seq<char>, text: seq<char>)
    requires forall i :: 0 <= i < |re| ==> re[i] == '.'
    ensures Begins(re, text) <==> |re| <= |text|
  {
    hide Begins;
    if re == [] {
      BeginsEmpty(text);
    } else {
      assert re[0] != '$' && (|re| > 1 ==> re[1] != '*');
      BeginsOne(re, text);
      if text != [] { DotsBegin(re[1..], text[1..]); }
    }
  }

  /** Dots stand for any characters, one each. */
  lemma DotsCountCharacters(re: seq<char>, text: seq<char>)
    requires forall i :: 0 <= i < |re| ==> re[i] == '.'
    ensures Matches(re, text) <==> |re| <= |text|
  {
    hide Begins;
    forall i | 0 <= i <= |text|
      ensures Begins(re, text[i..]) <==> |re| <= |text| - i
    {
      DotsBegin(re, text[i..]);
    }
    assert |re| <= |text| ==> Begins(re, text[0..]);
  }
}
