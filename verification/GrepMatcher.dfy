/** The regular expression matcher of grep (grep.c), and the language it accepts. */
module GrepMatcher {
  import opened CStrings

  // ---------------------------------------------------------------- the language

  /** A piece of a pattern: c, c*, or $ at the end. */
  datatype Item = One(c: char) | Star(c: char) | End

  /** The pattern from position r on, with '*' taking precedence over '$' and '.'. */
  function Items(re: string, r: int): seq<Item>
    requires 0 <= r <= |re|
    decreases |re| - r
  {
    if r == |re| then []
    else if CharAt(re, r + 1) == '*' then [Star(re[r])] + Items(re, r + 2)
    else if re[r] == '$' && r + 1 == |re| then [End]
    else [One(re[r])] + Items(re, r + 1)
  }

  predicate Fits(c: char, x: char) { c == '.' || c == x }

  /** text[lo..hi] is an instance of the item. */
  predicate Instance(item: Item, text: string, lo: int, hi: int) {
    && 0 <= lo <= hi <= |text|
    && match item
       case One(c) => hi == lo + 1 && Fits(c, text[lo])
       case Star(c) => forall i | lo <= i < hi :: Fits(c, text[i])
       case End => lo == hi == |text|
  }

  /** The items match text[cuts[0]..cuts[n]], item j matching text[cuts[j]..cuts[j + 1]]. */
  ghost predicate Cuts(items: seq<Item>, text: string, cuts: seq<int>) {
    |cuts| == |items| + 1 && forall j | 0 <= j < |items| :: Instance(items[j], text, cuts[j], cuts[j + 1])
  }

  /** Some segment of the text that starts at t matches. */
  ghost predicate SegmentAt(items: seq<Item>, text: string, t: int) {
    exists cuts :: Cuts(items, text, cuts) && cuts[0] == t
  }

  // ---------------------------------------------------------------- the search

  /** What matchhere() decides, in terms of itself. */
  ghost predicate Here(items: seq<Item>, text: string, t: int)
    requires 0 <= t <= |text|
    decreases |items|
  {
    if items == [] then true else
    match items[0]
    case One(c) => t < |text| && Fits(c, text[t]) && Here(items[1..], text, t + 1)
    case Star(c) => exists n | t <= n <= |text| :: Instance(Star(c), text, t, n) && Here(items[1..], text, n)
    case End => t == |text| && Here(items[1..], text, t)
  }

  lemma {:induction false} HereHasSegment(items: seq<Item>, text: string, t: int)
    requires 0 <= t <= |text| && Here(items, text, t)
    ensures SegmentAt(items, text, t)
    decreases |items|
  {
    if items == [] {
      assert Cuts(items, text, [t]);
    } else {
      var n: int;
      match items[0] {
        case One(c) => n := t + 1;
        case Star(c) => n :| t <= n <= |text| && Instance(Star(c), text, t, n) && Here(items[1..], text, n);
        case End => n := t;
      }
      HereHasSegment(items[1..], text, n);
      var rest :| Cuts(items[1..], text, rest) && rest[0] == n;
      OneMoreCut(items, text, t, rest);
    }
  }

  lemma OneMoreCut(items: seq<Item>, text: string, t: int, rest: seq<int>)
    requires items != [] && Cuts(items[1..], text, rest) && Instance(items[0], text, t, rest[0])
    ensures SegmentAt(items, text, t)
  {
    var cuts := [t] + rest;
    forall j | 0 <= j < |items| ensures Instance(items[j], text, cuts[j], cuts[j + 1]) {
      if j > 0 { assert items[j] == items[1..][j - 1] && cuts[j] == rest[j - 1] && cuts[j + 1] == rest[j - 1 + 1]; }
    }
    assert Cuts(items, text, cuts);
  }

  lemma {:induction false} SegmentIsHere(items: seq<Item>, text: string, cuts: seq<int>)
    requires Cuts(items, text, cuts) && 0 <= cuts[0] <= |text|
    ensures Here(items, text, cuts[0])
    decreases |items|
  {
    if items != [] {
      assert Instance(items[0], text, cuts[0], cuts[0 + 1]);
      var rest := cuts[1..];
      forall j | 0 <= j < |items[1..]| ensures Instance(items[1..][j], text, rest[j], rest[j + 1]) {
        assert Instance(items[j + 1], text, cuts[j + 1], cuts[j + 1 + 1]);
      }
      SegmentIsHere(items[1..], text, rest);
    }
  }

  lemma HereIffSegment(items: seq<Item>, text: string, t: int)
    requires 0 <= t <= |text|
    ensures Here(items, text, t) <==> SegmentAt(items, text, t)
  {
    if Here(items, text, t) { HereHasSegment(items, text, t); }
    if SegmentAt(items, text, t) {
      var cuts :| Cuts(items, text, cuts) && cuts[0] == t;
      SegmentIsHere(items, text, cuts);
    }
  }

  /** matchhere(re + r, text + t) */
  method MatchHere(re: string, r: int, text: string, t: int) returns (ok: bool)
    requires CString(re) && CString(text) && 0 <= r <= |re| && 0 <= t <= |text|
    ensures ok <==> Here(Items(re, r), text, t)
    decreases |re| - r, 0
  {
    if CharAt(re, r) == NUL { return true; }
    if CharAt(re, r + 1) == '*' {
      ok := MatchStar(re[r], re, r + 2, text, t);
      StarHere(re[r], Items(re, r + 2), text, t);
      return;
    }
    if CharAt(re, r) == '$' && CharAt(re, r + 1) == NUL {
      return CharAt(text, t) == NUL;
    }
    assert Items(re, r)[1..] == Items(re, r + 1);
    if CharAt(text, t) != NUL && (CharAt(re, r) == '.' || CharAt(re, r) == CharAt(text, t)) {
      ok := MatchHere(re, r + 1, text, t + 1);
      return;
    }
    return false;
  }

  lemma StarHere(c: char, items: seq<Item>, text: string, t: int)
    requires 0 <= t <= |text|
    ensures Here([Star(c)] + items, text, t)
            <==> exists n | t <= n <= |text| :: Instance(Star(c), text, t, n) && Here(items, text, n)
  {
    assert ([Star(c)] + items)[1..] == items;
  }

  /** matchstar(c, re + r, text + t) */
  method MatchStar(c: char, re: string, r: int, text: string, t: int) returns (ok: bool)
    requires CString(re) && CString(text) && 0 <= r <= |re| && 0 <= t <= |text|
    ensures ok <==> exists n | t <= n <= |text| :: Instance(Star(c), text, t, n) && Here(Items(re, r), text, n)
    decreases |re| - r, 1
  {
    var i := t;
    while true
      invariant t <= i <= |text| && Instance(Star(c), text, t, i)
      invariant forall n | t <= n < i :: !Here(Items(re, r), text, n)
      decreases |text| - i
    {
      ok := MatchHere(re, r, text, i);
      if ok { return true; }
      if !(CharAt(text, i) != NUL && (CharAt(text, i) == c || c == '.')) { return false; }
      i := i + 1;
    }
  }

  /**
   * match(re, text): 1 exactly when the text has a segment in the language of the pattern, at the
   * start of the text if the pattern begins with '^'.
   */
  method Match(re: string, text: string) returns (ok: bool)
    requires CString(re) && CString(text)
    ensures re != [] && re[0] == '^' ==> (ok <==> SegmentAt(Items(re, 1), text, 0))
    ensures !(re != [] && re[0] == '^') ==> (ok <==> exists t | 0 <= t <= |text| :: SegmentAt(Items(re, 0), text, t))
  {
    hide SegmentAt, Here, Items;
    if CharAt(re, 0) == '^' {
      HereIffSegment(Items(re, 1), text, 0);
      ok := MatchHere(re, 1, text, 0);
      return;
    }
    var t := 0;
    while true
      invariant 0 <= t <= |text| && forall n | 0 <= n < t :: !SegmentAt(Items(re, 0), text, n)
      decreases |text| - t
    {
      HereIffSegment(Items(re, 0), text, t);
      ok := MatchHere(re, 0, text, t);
      if ok { return true; }
      if CharAt(text, t) == NUL { return false; }
      t := t + 1;
    }
  }
}
