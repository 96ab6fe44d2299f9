/** The matcher of grep.c (match, matchhere, matchstar) against the language of its patterns. A pattern is a list
    of items, each standing for a set of strings; it occurs in a text where a stretch of the text can be cut into
    one piece per item. */
module Grep {

  /** One character (any one if c is '.'), any number of such characters, or the end of the text. */
  datatype Item = One(c: char) | Star(c: char) | End

  /** The items of a pattern without its leading '^'. '*' takes the character before it, whatever that is, and a
      '$' is the end of the text only as the last character. */
  function Items(re: string): (r: seq<Item>) {
    if re == "" then []
    else if |re| > 1 && re[1] == '*' then [Star(re[0])] + Items(re[2..])
    else if re == "$" then [End]
    else [One(re[0])] + Items(re[1..])
  }

  /** How an item is written. */
  function Pattern(items: seq<Item>): (re: string) {
    if items == [] then ""
    else
      (match items[0]
       case One(c) => [c]
       case Star(c) => [c, '*']
       case End => "$") + Pattern(items[1..])
  }

  function Head(it: Item): (c: char) {
    if it.End? then '$' else it.c
  }

  /** Items that can be read as they are written: "c*" is a star and not two characters, and a last "$" is the end and
      not a character. */
  ghost predicate Reading(items: seq<Item>) {
    && (forall k {:trigger items[k]} :: 0 <= k < |items| ==> (items[k].End? ==> k == |items| - 1))
    && (forall k {:trigger items[k]} :: 0 <= k < |items| ==> (items[k] == One('$') ==> k < |items| - 1))
    && (forall k {:trigger items[k]} :: 0 <= k < |items| - 1 && items[k].One? ==> Head(items[k + 1]) != '*')
  }

  /** The items of a pattern are a reading of it ... */
  lemma {:induction false} ItemsRead(re: string)
    ensures Reading(Items(re)) && Pattern(Items(re)) == re
    ensures re != "" ==> Items(re) != [] && Head(Items(re)[0]) == re[0]
    decreases |re|
  {
    if re != "" && re != "$" {
      var n := if |re| > 1 && re[1] == '*' then 2 else 1;
      ItemsRead(re[n..]);
      var items := Items(re);
      assert items[1..] == Items(re[n..]);
      forall k | 1 <= k < |items| ensures items[k] == items[1..][k - 1] {}
      assert re == re[..n] + re[n..];
    }
  }

  /** ... and the only one. */
  lemma {:induction false} OneReading(items: seq<Item>)
    requires Reading(items)
    ensures Items(Pattern(items)) == items
    decreases |items|
  {
    if items != [] {
      var rest := items[1..];
      forall k | 0 <= k < |rest| ensures rest[k] == items[k + 1] {}
      OneReading(rest);
      if rest != [] { assert items[1] == rest[0]; PatternHead(rest); }
      var re := Pattern(items);
      if items[0].Star? { assert re[2..] == Pattern(rest); }
      else { assert re[1..] == Pattern(rest); }
    }
  }

  lemma PatternHead(items: seq<Item>)
    requires items != []
    ensures Pattern(items) != "" && Pattern(items)[0] == Head(items[0])
  {
  }

  predicate Fits(c: char, x: char) {
    c == '.' || c == x
  }

  predicate AllFit(c: char, w: string) {
    forall k {:trigger w[k]} :: 0 <= k < |w| ==> Fits(c, w[k])
  }

  /** w is in the language of one item. */
  predicate InItem(it: Item, w: string) {
    match it
    case One(c) => |w| == 1 && Fits(c, w[0])
    case Star(c) => AllFit(c, w)
    case End => w == ""
  }

  function Concat(ws: seq<string>): (s: string) {
    if ws == [] then "" else ws[0] + Concat(ws[1..])
  }

  /** text[i..j] is cut into pieces, one per item; with End among the items, the stretch ends the text. */
  ghost predicate Cuts(items: seq<Item>, text: string, i: nat, j: nat, ws: seq<string>) {
    && i <= j <= |text| && |ws| == |items| && Concat(ws) == text[i..j]
    && (forall k {:trigger ws[k]} {:trigger items[k]} :: 0 <= k < |ws| ==> InItem(items[k], ws[k]))
    && (End in items ==> j == |text|)
  }

  /** The pattern occurs in the text from i on. */
  ghost predicate OccursAt(items: seq<Item>, text: string, i: nat) {
    exists j: nat, ws :: Cuts(items, text, i, j, ws)
  }

  /** What match promises: the pattern occurs somewhere, or at the start if it begins with '^'. */
  ghost predicate Occurs(re: string, text: string) {
    if re != "" && re[0] == '^' then OccursAt(Items(re[1..]), text, 0)
    else exists i: nat :: i <= |text| && OccursAt(Items(re), text, i)
  }

  // ---------------------------------------------------------------- one item at a time

  lemma OccursFirst(it: Item, rest: seq<Item>, text: string, i: nat)
    requires i <= |text| && OccursAt([it] + rest, text, i)
    ensures exists m: nat :: i <= m <= |text| && InItem(it, text[i..m]) && OccursAt(rest, text, m)
  {
    var items := [it] + rest;
    var j: nat, ws :| Cuts(items, text, i, j, ws);
    var m := i + |ws[0]|;
    assert items[0] == it && InItem(items[0], ws[0]);
    assert text[i..j] == ws[0] + Concat(ws[1..]);
    assert text[i..m] == text[i..j][..|ws[0]|] == ws[0];
    assert text[m..j] == text[i..j][|ws[0]|..] == Concat(ws[1..]);
    forall k | 0 <= k < |ws| - 1 ensures InItem(rest[k], ws[1..][k]) {
      assert items[k + 1] == rest[k] && InItem(items[k + 1], ws[k + 1]);
    }
    assert End in rest ==> End in items by {
      if End in rest { var k :| 0 <= k < |rest| && rest[k] == End; assert items[k + 1] == End; }
    }
    assert Cuts(rest, text, m, j, ws[1..]);
  }

  lemma OccursCons(it: Item, rest: seq<Item>, text: string, i: nat, m: nat)
    requires i <= m <= |text| && InItem(it, text[i..m]) && OccursAt(rest, text, m) && !it.End?
    ensures OccursAt([it] + rest, text, i)
  {
    var j: nat, ws :| Cuts(rest, text, m, j, ws);
    var items, vs := [it] + rest, [text[i..m]] + ws;
    assert vs[1..] == ws && text[i..j] == text[i..m] + text[m..j];
    forall k | 0 <= k < |vs| ensures InItem(items[k], vs[k]) {
      if k > 0 { assert items[k] == rest[k - 1] && vs[k] == ws[k - 1] && InItem(rest[k - 1], ws[k - 1]); }
    }
    assert End in items ==> End in rest;
    assert Cuts(items, text, i, j, vs);
  }

  lemma OccursNothing(text: string, i: nat)
    requires i <= |text|
    ensures OccursAt([], text, i)
  {
    assert text[i..i] == "";
    assert Cuts([], text, i, i, []);
  }

  lemma OccursEnd(text: string, i: nat)
    requires i <= |text|
    ensures OccursAt([End], text, i) <==> i == |text|
  {
    if OccursAt([End], text, i) {
      var j: nat, ws :| Cuts([End], text, i, j, ws);
      assert InItem([End][0], ws[0]) && Concat(ws) == ws[0] + Concat(ws[1..]) && Concat(ws[1..]) == "";
      assert End in [End];
    }
    if i == |text| {
      assert Concat([""]) == "" + Concat([""][1..]);
      assert Cuts([End], text, i, i, [""]);
    }
  }

  lemma OccursOne(c: char, rest: seq<Item>, text: string, i: nat)
    requires i <= |text|
    ensures OccursAt([One(c)] + rest, text, i) <==>
              i < |text| && (c == '.' || c == text[i]) && OccursAt(rest, text, i + 1)
  {
    if OccursAt([One(c)] + rest, text, i) {
      OccursFirst(One(c), rest, text, i);
      var m: nat :| i <= m <= |text| && InItem(One(c), text[i..m]) && OccursAt(rest, text, m);
      assert |text[i..m]| == 1 && text[i..m][0] == text[i];
    }
    if i < |text| && Fits(c, text[i]) && OccursAt(rest, text, i + 1) { OccursCons(One(c), rest, text, i, i + 1); }
  }

  /** How far a starred character can run from i. */
  ghost predicate Runs(c: char, text: string, i: nat, m: nat) {
    i <= m <= |text| && forall k {:trigger text[k]} :: i <= k < m ==> c == '.' || c == text[k]
  }

  lemma OccursStar(c: char, rest: seq<Item>, text: string, i: nat)
    requires i <= |text|
    ensures OccursAt([Star(c)] + rest, text, i) <==> exists m: nat :: Runs(c, text, i, m) && OccursAt(rest, text, m)
  {
    if OccursAt([Star(c)] + rest, text, i) {
      OccursFirst(Star(c), rest, text, i);
      var m: nat :| i <= m <= |text| && InItem(Star(c), text[i..m]) && OccursAt(rest, text, m);
      forall k | i <= k < m ensures Fits(c, text[k]) { assert text[i..m][k - i] == text[k]; }
      assert Runs(c, text, i, m);
    }
    if m: nat :| Runs(c, text, i, m) && OccursAt(rest, text, m) {
      assert AllFit(c, text[i..m]);
      OccursCons(Star(c), rest, text, i, m);
    }
  }

  // ---------------------------------------------------------------- the matcher

  /** text[i..] begins with a match. */
  method MatchHere(re: string, text: string, i: nat) returns (r: bool)
    requires i <= |text|
    ensures r == OccursAt(Items(re), text, i)
    decreases |re|, 1
  {
    if re == "" {
      OccursNothing(text, i);
      return true;
    }
    if |re| > 1 && re[1] == '*' {
      OccursStar(re[0], Items(re[2..]), text, i);
      r := MatchStar(re[0], re[2..], text, i);
      return;
    }
    if re[0] == '$' && |re| == 1 {
      OccursEnd(text, i);
      return i == |text|;
    }
    OccursOne(re[0], Items(re[1..]), text, i);
    if i < |text| && (re[0] == '.' || re[0] == text[i]) {
      r := MatchHere(re[1..], text, i + 1);
      return;
    }
    return false;
  }

  method MatchStar(c: char, re: string, text: string, i: nat) returns (r: bool)
    requires i <= |text|
    ensures r <==> exists m: nat :: Runs(c, text, i, m) && OccursAt(Items(re), text, m)
    decreases |re|, 2
  {
    var t := i;
    while true
      invariant i <= t <= |text| && Runs(c, text, i, t)
      invariant forall m: nat {:trigger OccursAt(Items(re), text, m)} :: i <= m < t ==> !OccursAt(Items(re), text, m)
      decreases |text| - t
    {
      var here := MatchHere(re, text, t);
      if here { return true; }
      if t < |text| && (text[t] == c || c == '.') { t := t + 1; } else { break; }
    }
    assert t == |text| || !Fits(c, text[t]);
    assert forall m: nat {:trigger Runs(c, text, i, m)} :: Runs(c, text, i, m) ==> m <= t;
    assert !OccursAt(Items(re), text, t);
    return false;
  }

  /** 1 exactly when the text contains a string of the pattern's language. */
  method Match(re: string, text: string) returns (r: bool)
    ensures r == Occurs(re, text)
  {
    if re != "" && re[0] == '^' {
      r := MatchHere(re[1..], text, 0);
      return;
    }
    var t := 0;
    while true
      invariant 0 <= t <= |text|
      invariant forall m: nat {:trigger OccursAt(Items(re), text, m)} :: m < t ==> !OccursAt(Items(re), text, m)
      decreases |text| - t
    {
      var here := MatchHere(re, text, t);
      if here { return true; }
      if t == |text| { break; }
      t := t + 1;
    }
    return false;
  }
}
