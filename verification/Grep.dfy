/** user/grep.c: the regular expression matcher, against the set of words that an
    expression stands for. C strings are sequences without their final NUL. */
module Grep {

  /** What a pattern is made of: one character, any number of a character, or the end of the
      text. The character '.' stands for every character. */
  datatype Item = One(c: char) | Star(c: char) | End

  /** How an item is written. */
  function Sign(item: Item): string {
    match item
    case One(c) => [c]
    case Star(c) => [c, '*']
    case End => "$"
  }

  function Text(items: seq<Item>): string {
    if items == [] then "" else Sign(items[0]) + Text(items[1..])
  }

  /** A '*' belongs to the character before it, and a '$' is the end of the text just at the end
      of the pattern. */
  predicate Proper(items: seq<Item>) {
    && (forall k :: 0 <= k < |items| - 1 ==> items[k] != End)
    && (forall k :: 0 <= k < |items| - 1 && items[k].One? ==> Sign(items[k + 1])[0] != '*')
    && (items != [] ==> items[|items| - 1] != One('$'))
  }

  predicate Fits(c: char, x: char) { c == '.' || c == x }

  predicate AllFit(c: char, w: string) {
    forall i :: 0 <= i < |w| ==> Fits(c, w[i])
  }

  /** Word w is what the items stand for; last says that w ends where the text ends. */
  ghost predicate Word(items: seq<Item>, w: string, last: bool) {
    if items == [] then w == ""
    else match items[0]
      case One(c) => w != "" && Fits(c, w[0]) && Word(items[1..], w[1..], last)
      case Star(c) => exists k :: 0 <= k <= |w| && AllFit(c, w[..k]) && Word(items[1..], w[k..], last)
      case End => last && Word(items[1..], w, last)
  }

  /** Some beginning of text is a word. */
  ghost predicate Begins(items: seq<Item>, text: string) {
    exists j :: 0 <= j <= |text| && Word(items, text[..j], j == |text|)
  }

  /** Some part of text is a word. */
  ghost predicate Occurs(items: seq<Item>, text: string) {
    exists i, j :: 0 <= i <= j <= |text| && Word(items, text[i..j], j == |text|)
  }

  /** The meaning of a pattern: a word of the items that it is written with stands somewhere in
      text, at its beginning if the pattern starts with '^'. */
  ghost predicate Meaning(re: string, text: string) {
    exists items :: Proper(items) &&
      if re != "" && re[0] == '^' then Text(items) == re[1..] && Begins(items, text)
      else Text(items) == re && Occurs(items, text)
  }

  // ---- a pattern is written with one list of items

  function Items(re: string): (items: seq<Item>)
    ensures items != [] ==> re != "" && Sign(items[0])[0] == re[0]
  {
    if re == "" then []
    else if |re| >= 2 && re[1] == '*' then [Star(re[0])] + Items(re[2..])
    else if re == "$" then [End]
    else [One(re[0])] + Items(re[1..])
  }

  lemma ProperOn(item: Item, rest: seq<Item>)
    requires Proper(rest) && item != End && (rest == [] ==> item != One('$'))
    requires item.One? && rest != [] ==> Sign(rest[0])[0] != '*'
    ensures Proper([item] + rest) && Text([item] + rest) == Sign(item) + Text(rest)
  {
    assert ([item] + rest)[1..] == rest;
  }

  /** Every pattern is written with proper items ... */
  lemma {:induction false} Reads(re: string)
    ensures Text(Items(re)) == re && Proper(Items(re))
  {
    if re != "" {
      if |re| >= 2 && re[1] == '*' {
        Reads(re[2..]);
        assert re == Sign(Star(re[0])) + re[2..];
        ProperOn(Star(re[0]), Items(re[2..]));
      } else if re == "$" {
        assert [End][1..] == [];
      } else {
        Reads(re[1..]);
        assert re == Sign(One(re[0])) + re[1..];
        ProperOn(One(re[0]), Items(re[1..]));
      }
    }
  }

  /** ... and with no others: items come back from their text exactly if they are proper. */
  lemma {:induction false} ReadsBack(items: seq<Item>)
    ensures Items(Text(items)) == items <==> Proper(items)
  {
    Reads(Text(items));
    if Proper(items) {
      Unique(items);
    }
  }

  lemma {:induction false} Unique(items: seq<Item>)
    requires Proper(items)
    ensures Items(Text(items)) == items
  {
    if items != [] {
      var rest := items[1..];
      assert Proper(rest);
      Unique(rest);
      var re := Text(items);
      assert re == Sign(items[0]) + Text(rest);
      if rest != [] {
        assert Text(rest) == Sign(rest[0]) + Text(rest[1..]);
        assert rest[0] == items[1];
      }
      if items[0].Star? {
        assert re[2..] == Text(rest);
      } else {
        assert re[1..] == Text(rest);
      }
    }
  }

  /** So the items of a pattern are what Items gives. */
  lemma MeaningIs(re: string, text: string)
    ensures Meaning(re, text) <==>
      if re != "" && re[0] == '^' then Begins(Items(re[1..]), text) else Occurs(Items(re), text)
  {
    var re' := if re != "" && re[0] == '^' then re[1..] else re;
    Reads(re');
    forall items | Proper(items) && Text(items) == re'
      ensures items == Items(re')
    {
      ReadsBack(items);
    }
  }

  // ---- how words begin

  lemma BeginsNothing(text: string)
    ensures Begins([], text)
  {
    assert Word([], text[..0], 0 == |text|);
  }

  lemma BeginsEnd(text: string)
    ensures Begins([End], text) <==> text == ""
  {
    if text == "" {
      assert Word([End], text[..0], 0 == |text|) by {
        assert [End][1..] == [];
      }
    } else {
      forall j | 0 <= j <= |text|
        ensures !Word([End], text[..j], j == |text|)
      {
        assert [End][1..] == [];
        assert Word([End][1..], text[..j], j == |text|) <==> text[..j] == "";
      }
    }
  }

  lemma BeginsOne(c: char, rest: seq<Item>, text: string)
    ensures Begins([One(c)] + rest, text) <==> text != "" && Fits(c, text[0]) && Begins(rest, text[1..])
  {
    var items := [One(c)] + rest;
    assert items[1..] == rest;
    if Begins(items, text) {
      var j :| 0 <= j <= |text| && Word(items, text[..j], j == |text|);
      assert text[..j][1..] == text[1..][..j - 1];
      assert Word(rest, text[1..][..j - 1], j - 1 == |text[1..]|);
    }
    if text != "" && Fits(c, text[0]) && Begins(rest, text[1..]) {
      var j :| 0 <= j <= |text[1..]| && Word(rest, text[1..][..j], j == |text[1..]|);
      assert text[..j + 1][1..] == text[1..][..j];
      assert Word(items, text[..j + 1], j + 1 == |text|);
    }
  }

  lemma BeginsStar(c: char, rest: seq<Item>, text: string)
    ensures Begins([Star(c)] + rest, text) <==>
      exists k :: 0 <= k <= |text| && AllFit(c, text[..k]) && Begins(rest, text[k..])
  {
    var items := [Star(c)] + rest;
    assert items[1..] == rest;
    if Begins(items, text) {
      var j :| 0 <= j <= |text| && Word(items, text[..j], j == |text|);
      var k :| 0 <= k <= |text[..j]| && AllFit(c, text[..j][..k]) && Word(rest, text[..j][k..], j == |text|);
      assert text[..j][..k] == text[..k] && text[..j][k..] == text[k..][..j - k];
      assert Word(rest, text[k..][..j - k], j - k == |text[k..]|);
    }
    if k :| 0 <= k <= |text| && AllFit(c, text[..k]) && Begins(rest, text[k..]) {
      var j :| 0 <= j <= |text[k..]| && Word(rest, text[k..][..j], j == |text[k..]|);
      var w := text[..k + j];
      assert w[..k] == text[..k] && w[k..] == text[k..][..j];
      assert Word(items, w, k + j == |text|);
    }
  }

  // ---- the code

  /** matchhere. */
  method MatchHere(re: string, text: string) returns (r: bool)
    ensures r == Begins(Items(re), text)
    decreases |re|, 0
  {
    if re == "" {
      BeginsNothing(text);
      return true;
    }
    if |re| >= 2 && re[1] == '*' {
      BeginsStar(re[0], Items(re[2..]), text);
      r := MatchStar(re[0], re[2..], text);
      return;
    }
    if re == "$" {
      BeginsEnd(text);
      return text == "";
    }
    BeginsOne(re[0], Items(re[1..]), text);
    if text != "" && (re[0] == '.' || re[0] == text[0]) {
      r := MatchHere(re[1..], text[1..]);
      return;
    }
    return false;
  }

  /** matchstar: text moves on while its characters fit c. */
  method MatchStar(c: char, re: string, text: string) returns (r: bool)
    ensures r == exists k :: 0 <= k <= |text| && AllFit(c, text[..k]) && Begins(Items(re), text[k..])
    decreases |re|, 1
  {
    var k := 0;
    while true
      invariant 0 <= k <= |text| && AllFit(c, text[..k])
      invariant forall i :: 0 <= i < k ==> !Begins(Items(re), text[i..])
      decreases |text| - k
    {
      var here := MatchHere(re, text[k..]);
      if here {
        return true;
      }
      if k == |text| || !(text[k] == c || c == '.') {
        StopsAt(c, text, k);
        return false;
      }
      k := k + 1;
    }
  }

  lemma StopsAt(c: char, text: string, k: nat)
    requires k <= |text| && (k == |text| || !Fits(c, text[k]))
    ensures forall i :: k < i <= |text| ==> !AllFit(c, text[..i])
  {
    forall i | k < i <= |text|
      ensures !AllFit(c, text[..i])
    {
      assert text[..i][k] == text[k];
    }
  }

  /** match. */
  method Match(re: string, text: string) returns (r: bool)
    ensures r == Meaning(re, text)
  {
    MeaningIs(re, text);
    if re != "" && re[0] == '^' {
      r := MatchHere(re[1..], text);
      return;
    }
    var i := 0;
    while true
      invariant 0 <= i <= |text| && forall h :: 0 <= h < i ==> !Begins(Items(re), text[h..])
      decreases |text| - i
    {
      var here := MatchHere(re, text[i..]);
      if here {
        Somewhere(Items(re), text, i);
        return true;
      }
      if i == |text| {
        Nowhere(Items(re), text);
        return false;
      }
      i := i + 1;
    }
  }

  lemma Somewhere(items: seq<Item>, text: string, i: nat)
    requires i <= |text| && Begins(items, text[i..])
    ensures Occurs(items, text)
  {
    var j :| 0 <= j <= |text[i..]| && Word(items, text[i..][..j], j == |text[i..]|);
    assert text[i..i + j] == text[i..][..j];
    assert Word(items, text[i..i + j], i + j == |text|);
  }

  lemma Nowhere(items: seq<Item>, text: string)
    requires forall h :: 0 <= h <= |text| ==> !Begins(items, text[h..])
    ensures !Occurs(items, text)
  {
    forall i, j | 0 <= i <= j <= |text|
      ensures !Word(items, text[i..j], j == |text|)
    {
      assert text[i..][..j - i] == text[i..j];
      assert !Begins(items, text[i..]);
    }
  }

  // ---- what patterns mean

  /** w has no character that means something else. */
  predicate Plain(w: string) {
    forall i :: 0 <= i < |w| ==> w[i] !in ".*^$"
  }

  /** The items of a plain word, with or without '$'. */
  function Ones(w: string): (items: seq<Item>)
    ensures |items| == |w| && forall i :: 0 <= i < |w| ==> items[i] == One(w[i])
  {
    seq(|w|, i requires 0 <= i < |w| => One(w[i]))
  }

  lemma {:induction false} PlainItems(w: string, end: string)
    requires Plain(w) && end in {"", "$"}
    ensures Items(w + end) == Ones(w) + if end == "$" then [End] else []
  {
    var re := w + end;
    if w != "" {
      assert re[1..] == w[1..] + end;
      PlainItems(w[1..], end);
      assert Ones(w) == [One(w[0])] + Ones(w[1..]);
    }
  }

  lemma {:induction false} PlainWord(w: string, end: bool, v: string, last: bool)
    requires Plain(w)
    ensures Word(Ones(w) + (if end then [End] else []), v, last) <==> v == w && (end ==> last)
  {
    var tail := if end then [End] else [];
    var items := Ones(w) + tail;
    if w == "" {
      assert items == tail && (end ==> items[1..] == []);
    } else {
      assert items[1..] == Ones(w[1..]) + tail && items[0] == One(w[0]);
      if v != "" {
        PlainWord(w[1..], end, v[1..], last);
        assert v == [v[0]] + v[1..] && w == [w[0]] + w[1..];
      }
    }
  }

  /** A plain word matches where it stands in the text. */
  lemma MeansOccurs(w: string, text: string)
    requires Plain(w)
    ensures Meaning(w, text) <==> exists i :: 0 <= i <= |text| && w <= text[i..]
  {
    MeaningIs(w, text);
    PlainItems(w, "");
    assert w + "" == w && Items(w) == Ones(w) == Ones(w) + [];
    if Meaning(w, text) {
      var i, j :| 0 <= i <= j <= |text| && Word(Items(w), text[i..j], j == |text|);
      PlainWord(w, false, text[i..j], j == |text|);
      assert text[i..j] <= text[i..];
    }
    if i :| 0 <= i <= |text| && w <= text[i..] {
      var j := i + |w|;
      assert text[i..j] == text[i..][..|w|];
      PlainWord(w, false, text[i..j], j == |text|);
    }
  }

  /** After '^' it matches at the beginning of the text. */
  lemma MeansBegins(w: string, text: string)
    requires Plain(w)
    ensures Meaning("^" + w, text) <==> w <= text
  {
    MeaningIs("^" + w, text);
    assert ("^" + w)[1..] == w;
    PlainItems(w, "");
    assert w + "" == w && Items(w) == Ones(w) == Ones(w) + [];
    if Begins(Items(w), text) {
      var j :| 0 <= j <= |text| && Word(Items(w), text[..j], j == |text|);
      PlainWord(w, false, text[..j], j == |text|);
    }
    if w <= text {
      PlainWord(w, false, text[..|w|], |w| == |text|);
    }
  }

  /** Before '$' it matches at the end of the text. */
  lemma MeansEnds(w: string, text: string)
    requires Plain(w)
    ensures Meaning(w + "$", text) <==> |w| <= |text| && text[|text| - |w|..] == w
  {
    MeaningIs(w + "$", text);
    PlainItems(w, "$");
    if Meaning(w + "$", text) {
      var i, j :| 0 <= i <= j <= |text| && Word(Items(w + "$"), text[i..j], j == |text|);
      PlainWord(w, true, text[i..j], j == |text|);
    }
    if |w| <= |text| && text[|text| - |w|..] == w {
      var i := |text| - |w|;
      assert text[i..|text|] == w;
      PlainWord(w, true, text[i..|text|], true);
    }
  }

  /** Between the two it matches the whole text. */
  lemma MeansIs(w: string, text: string)
    requires Plain(w)
    ensures Meaning("^" + w + "$", text) <==> text == w
  {
    var re := "^" + w + "$";
    MeaningIs(re, text);
    assert re[1..] == w + "$";
    PlainItems(w, "$");
    if Begins(Items(w + "$"), text) {
      var j :| 0 <= j <= |text| && Word(Items(w + "$"), text[..j], j == |text|);
      PlainWord(w, true, text[..j], j == |text|);
    }
    if text == w {
      PlainWord(w, true, text[..|text|], true);
    }
  }

  /** c* takes a run of c, of any length, and of any characters if c is '.'. */
  lemma MeansRun(c: char, re: string, text: string)
    ensures Meaning("^" + [c, '*'] + re, text) <==>
      exists k :: 0 <= k <= |text| && (c == '.' || forall i :: 0 <= i < k ==> text[i] == c)
                  && Meaning("^" + re, text[k..])
  {
    var star := "^" + [c, '*'] + re;
    assert star[1..] == [c, '*'] + re && star[1..][2..] == re && ("^" + re)[1..] == re;
    MeaningIs(star, text);
    BeginsStar(c, Items(re), text);
    forall k | 0 <= k <= |text|
      ensures Meaning("^" + re, text[k..]) <==> Begins(Items(re), text[k..])
      ensures AllFit(c, text[..k]) <==> c == '.' || forall i :: 0 <= i < k ==> text[i] == c
    {
      MeaningIs("^" + re, text[k..]);
      assert forall i :: 0 <= i < k ==> text[..k][i] == text[i];
    }
  }

  /** Any other character takes itself, and '.' takes any one character. */
  lemma MeansOne(c: char, re: string, text: string)
    requires (re != "" ==> re[0] != '*') && (c == '$' ==> re != "")
    ensures Meaning("^" + [c] + re, text) <==>
      text != "" && (c == '.' || text[0] == c) && Meaning("^" + re, text[1..])
  {
    var one := "^" + [c] + re;
    assert one[1..] == [c] + re && one[1..][1..] == re && ("^" + re)[1..] == re;
    MeaningIs(one, text);
    BeginsOne(c, Items(re), text);
    if text != "" {
      MeaningIs("^" + re, text[1..]);
    }
  }

  /** Without '^' a pattern matches where it would match with it. */
  lemma MeansAnywhere(re: string, text: string)
    requires re != "" ==> re[0] != '^'
    ensures Meaning(re, text) <==> exists i :: 0 <= i <= |text| && Meaning("^" + re, text[i..])
  {
    MeaningIs(re, text);
    assert ("^" + re)[1..] == re;
    forall i | 0 <= i <= |text|
      ensures Meaning("^" + re, text[i..]) <==> Begins(Items(re), text[i..])
    {
      MeaningIs("^" + re, text[i..]);
    }
    if i :| 0 <= i <= |text| && Begins(Items(re), text[i..]) {
      Somewhere(Items(re), text, i);
    } else {
      Nowhere(Items(re), text);
    }
  }
}
