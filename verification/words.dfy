/** Splitting text on the space character and joining words back with one
    space, with the semantics of JavaScript's `text.split(" ")` and
    `words.join(" ")`: consecutive spaces give empty words, and the empty
    text splits into one empty word. */
module Words {

  const Space: char := ' '

  /** A piece of text that contains no space: what a split can produce. */
  predicate IsWord(w: string) {
    Space !in w
  }

  /** Joins the words with a single space between neighbours. */
  function Join(ws: seq<string>): string {
    if |ws| == 0 then ""
    else if |ws| == 1 then ws[0]
    else ws[0] + [Space] + Join(ws[1..])
  }

  lemma JoinCons(w: string, ws: seq<string>)
    requires |ws| >= 1
    ensures Join([w] + ws) == w + [Space] + Join(ws)
  {
    assert ([w] + ws)[1..] == ws;
  }

  /** Splits the text at every space into the pieces between them. */
  function Split(s: string): (r: seq<string>)
    ensures |r| >= 1
    ensures forall i :: 0 <= i < |r| ==> IsWord(r[i])
    decreases |s|
  {
    if |s| == 0 then [""]
    else
      assert s == [s[0]] + s[1..];
      var t := Split(s[1..]);
      if s[0] == Space then [""] + t
      else [[s[0]] + t[0]] + t[1..]
  }

  /** Joining the pieces of a split gives the text back. */
  lemma {:induction false} JoinSplit(s: string)
    ensures Join(Split(s)) == s
    decreases |s|
  {
    if |s| > 0 {
      assert s == [s[0]] + s[1..];
      var t := Split(s[1..]);
      JoinSplit(s[1..]);
      if s[0] == Space {
        JoinCons("", t);
      } else {
        var r := [[s[0]] + t[0]] + t[1..];
        assert Split(s) == r;
        if |t| > 1 {
          JoinCons([s[0]] + t[0], t[1..]);
          JoinCons(t[0], t[1..]);
          assert [t[0]] + t[1..] == t;
        } else {
          assert r == [[s[0]] + t[0]];
        }
      }
    }
  }

  /** There is one more piece than there are spaces in the text. */
  lemma {:induction false} SplitCount(s: string)
    ensures |Split(s)| == multiset(s)[Space] + 1
    decreases |s|
  {
    if |s| > 0 {
      assert s == [s[0]] + s[1..];
      assert multiset(s) == multiset([s[0]]) + multiset(s[1..]);
      SplitCount(s[1..]);
    }
  }

  /** The longest space-free prefix of the text: everything before the
      first space. */
  function FirstWord(s: string): (w: string)
    ensures IsWord(w)
    ensures w <= s
    ensures w == s || s[|w|] == Space
  {
    if |s| == 0 || s[0] == Space then ""
    else [s[0]] + FirstWord(s[1..])
  }

  /** The first piece of a split is the text before the first space. */
  lemma {:induction false} SplitHeadIsFirstWord(s: string)
    ensures Split(s)[0] == FirstWord(s)
    decreases |s|
  {
    if |s| > 0 && s[0] != Space {
      SplitHeadIsFirstWord(s[1..]);
    }
  }

  /** Appending more words after a space does not change the first word. */
  lemma {:induction false} FirstWordOfJoin(a: string, b: string)
    ensures FirstWord(a + [Space] + b) == FirstWord(a)
    decreases |a|
  {
    if |a| > 0 && a[0] != Space {
      assert (a + [Space] + b)[1..] == a[1..] + [Space] + b;
      FirstWordOfJoin(a[1..], b);
    }
  }

  /** A word splits into itself alone. */
  lemma {:induction false} SplitWord(w: string)
    requires IsWord(w)
    ensures Split(w) == [w]
    decreases |w|
  {
    if |w| > 0 {
      assert w == [w[0]] + w[1..];
      SplitWord(w[1..]);
    }
  }

  lemma SplitConsSpace(x: string)
    ensures Split([Space] + x) == [""] + Split(x)
  {
    assert ([Space] + x)[1..] == x;
  }

  lemma SplitConsChar(c: char, x: string)
    requires c != Space
    ensures Split([c] + x) == [[c] + Split(x)[0]] + Split(x)[1..]
  {
    assert ([c] + x)[1..] == x;
  }

  /** Splitting two texts joined by a space splits each of them. */
  lemma {:induction false} SplitAroundSpace(a: string, b: string)
    ensures Split(a + [Space] + b) == Split(a) + Split(b)
    decreases |a|
  {
    if |a| == 0 {
      assert a + [Space] + b == [Space] + b;
      SplitConsSpace(b);
    } else {
      var c, rest := a[0], a[1..];
      assert a == [c] + rest;
      assert a + [Space] + b == [c] + (rest + [Space] + b);
      SplitAroundSpace(rest, b);
      if c == Space {
        SplitConsSpace(rest + [Space] + b);
        SplitConsSpace(rest);
      } else {
        SplitConsCharAppend(c, rest, b);
      }
    }
  }

  lemma SplitConsCharAppend(c: char, rest: string, b: string)
    requires c != Space
    requires Split(rest + [Space] + b) == Split(rest) + Split(b)
    ensures Split([c] + (rest + [Space] + b)) == Split([c] + rest) + Split(b)
  {
    var t, u := Split(rest), Split(b);
    var tu := t + u;
    SplitConsChar(c, rest + [Space] + b);
    SplitConsChar(c, rest);
    var h := [[c] + t[0]];
    assert tu[0] == t[0];
    assert tu[1..] == t[1..] + u;
    ConcatAssoc(h, t[1..], u);
  }

  /** Regrouping a concatenation, kept as its own step so that the proof
      above stays cheap for the solver. */
  lemma ConcatAssoc<T>(x: seq<T>, y: seq<T>, z: seq<T>)
    ensures x + (y + z) == (x + y) + z
  {
  }

  /** Joining words and splitting the result gives the words back. */
  lemma {:induction false} SplitJoin(ws: seq<string>)
    requires |ws| >= 1
    requires forall i :: 0 <= i < |ws| ==> IsWord(ws[i])
    ensures Split(Join(ws)) == ws
    decreases |ws|
  {
    SplitWord(ws[0]);
    if |ws| > 1 {
      SplitAroundSpace(ws[0], Join(ws[1..]));
      SplitJoin(ws[1..]);
      assert ws == [ws[0]] + ws[1..];
    }
  }

  /** The words of every text in turn, in order. */
  function SplitEach(texts: seq<string>): (r: seq<string>)
    ensures |r| >= |texts|
    ensures forall i :: 0 <= i < |r| ==> IsWord(r[i])
  {
    if |texts| == 0 then []
    else Split(texts[0]) + SplitEach(texts[1..])
  }

  /** Splitting joined texts splits each text, so no word ever spans two of
      them. */
  lemma {:induction false} SplitOfJoin(texts: seq<string>)
    requires |texts| >= 1
    ensures Split(Join(texts)) == SplitEach(texts)
    decreases |texts|
  {
    if |texts| == 1 {
      assert SplitEach(texts[1..]) == [];
    } else {
      SplitAroundSpace(texts[0], Join(texts[1..]));
      SplitOfJoin(texts[1..]);
    }
  }
}
