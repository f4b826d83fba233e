/** The editor's greedy line wrapper (`wrapText`).  The text is cut at every
    single space, and the words are packed onto lines from left to right: a
    word joins the current line after one space unless the line would then
    be longer than the maximum, in which case the current line is closed and
    the word starts the next one.  Words are never broken, and the last line
    is always emitted. */
module Wrap {
  import opened Words

  /** A line respects the maximum when it is short enough or when it is a
      single word, which the wrapper never breaks. */
  predicate Fits(line: string, maxLength: int) {
    |line| <= maxLength || IsWord(line)
  }

  /** Line `i` had no room left for the first word of line `i + 1`. */
  predicate Full(lines: seq<string>, i: int, maxLength: int)
    requires 0 <= i < |lines| - 1
  {
    |lines[i]| + 1 + |FirstWord(lines[i + 1])| > maxLength
  }

  /** The wrapping loop from the point where `current` is the line being
      built and `rest` are the words not yet placed. */
  function WrapFrom(current: string, rest: seq<string>, maxLength: int): (lines: seq<string>)
    ensures 1 <= |lines| <= |rest| + 1
    decreases |rest|
  {
    if |rest| == 0 then [current]
    else
      var newLine := current + [Space] + rest[0];
      if |newLine| > maxLength then [current] + WrapFrom(rest[0], rest[1..], maxLength)
      else WrapFrom(newLine, rest[1..], maxLength)
  }

  /** Wraps the text into lines of at most `maxLength` characters where the
      words allow it.  There is at least one line and never more lines than
      words; the empty text gives one empty line. */
  function WrapText(text: string, maxLength: int): (lines: seq<string>)
    ensures 1 <= |lines| <= |Split(text)|
    ensures text == "" ==> lines == [""]
  {
    var words := Split(text);
    WrapFrom(words[0], words[1..], maxLength)
  }

  /** The wrapping loop as the editor writes it: a running current line and
      an index into the words. */
  method WrapTextLoop(text: string, maxLength: int) returns (lines: seq<string>)
    ensures lines == WrapText(text, maxLength)
  {
    var words := Split(text);
    lines := [];
    var currentLine := words[0];
    var i := 1;
    while i < |words|
      invariant 1 <= i <= |words|
      invariant lines + WrapFrom(currentLine, words[i..], maxLength) == WrapText(text, maxLength)
    {
      var word := words[i];
      var newLine := currentLine + [Space] + word;
      assert words[i..][1..] == words[i + 1..];
      if |newLine| > maxLength {
        lines := lines + [currentLine];
        currentLine := word;
      } else {
        currentLine := newLine;
      }
      i := i + 1;
    }
    lines := lines + [currentLine];
  }

  /** The lines built from `current` and `rest` join back to them. */
  lemma {:induction false} WrapFromJoin(current: string, rest: seq<string>, maxLength: int)
    ensures Join(WrapFrom(current, rest, maxLength)) == Join([current] + rest)
    decreases |rest|
  {
    if |rest| > 0 {
      var newLine := current + [Space] + rest[0];
      JoinCons(current, rest);
      if |rest| > 1 {
        JoinCons(rest[0], rest[1..]);
        JoinCons(newLine, rest[1..]);
        assert [rest[0]] + rest[1..] == rest;
      } else {
        assert [newLine] + rest[1..] == [newLine];
      }
      WrapFromJoin(rest[0], rest[1..], maxLength);
      WrapFromJoin(newLine, rest[1..], maxLength);
      if |newLine| > maxLength {
        JoinCons(current, WrapFrom(rest[0], rest[1..], maxLength));
      }
    }
  }

  /** Every line built from a fitting start and whole words fits. */
  lemma {:induction false} WrapFromFits(current: string, rest: seq<string>, maxLength: int)
    requires Fits(current, maxLength)
    requires forall i :: 0 <= i < |rest| ==> IsWord(rest[i])
    ensures forall i :: 0 <= i < |WrapFrom(current, rest, maxLength)| ==>
              Fits(WrapFrom(current, rest, maxLength)[i], maxLength)
    decreases |rest|
  {
    if |rest| > 0 {
      var newLine := current + [Space] + rest[0];
      if |newLine| > maxLength {
        WrapFromFits(rest[0], rest[1..], maxLength);
      } else {
        WrapFromFits(newLine, rest[1..], maxLength);
      }
    }
  }

  /** The first line built from `current` starts with its first word. */
  lemma {:induction false} WrapFromHead(current: string, rest: seq<string>, maxLength: int)
    ensures FirstWord(WrapFrom(current, rest, maxLength)[0]) == FirstWord(current)
    decreases |rest|
  {
    if |rest| > 0 {
      var newLine := current + [Space] + rest[0];
      if |newLine| <= maxLength {
        WrapFromHead(newLine, rest[1..], maxLength);
        FirstWordOfJoin(current, rest[0]);
      }
    }
  }

  /** Every line but the last built from whole words is full. */
  lemma {:induction false} WrapFromFull(current: string, rest: seq<string>, maxLength: int)
    requires forall i :: 0 <= i < |rest| ==> IsWord(rest[i])
    ensures forall i :: 0 <= i < |WrapFrom(current, rest, maxLength)| - 1 ==>
              Full(WrapFrom(current, rest, maxLength), i, maxLength)
    decreases |rest|
  {
    if |rest| > 0 {
      var newLine := current + [Space] + rest[0];
      if |newLine| > maxLength {
        var tail := WrapFrom(rest[0], rest[1..], maxLength);
        var lines := [current] + tail;
        WrapFromFull(rest[0], rest[1..], maxLength);
        WrapFromHead(rest[0], rest[1..], maxLength);
        SplitWord(rest[0]);
        SplitHeadIsFirstWord(rest[0]);
        assert Full(lines, 0, maxLength);
        forall i | 1 <= i < |lines| - 1
          ensures Full(lines, i, maxLength)
        {
          assert Full(tail, i - 1, maxLength);
        }
      } else {
        WrapFromFull(newLine, rest[1..], maxLength);
      }
    }
  }

  /** Joining the lines with single spaces gives the text back: a line break
      only ever replaces one space. */
  lemma WrapTextJoin(text: string, maxLength: int)
    ensures Join(WrapText(text, maxLength)) == text
  {
    var words := Split(text);
    WrapFromJoin(words[0], words[1..], maxLength);
    assert [words[0]] + words[1..] == words;
    JoinSplit(text);
  }

  /** Each line is at most `maxLength` long or is a single word. */
  lemma WrapTextFits(text: string, maxLength: int)
    ensures forall i :: 0 <= i < |WrapText(text, maxLength)| ==>
              Fits(WrapText(text, maxLength)[i], maxLength)
  {
    var words := Split(text);
    WrapFromFits(words[0], words[1..], maxLength);
  }

  /** Greedy: no line could have taken the first word of the next line. */
  lemma WrapTextFull(text: string, maxLength: int)
    ensures forall i :: 0 <= i < |WrapText(text, maxLength)| - 1 ==>
              Full(WrapText(text, maxLength), i, maxLength)
  {
    var words := Split(text);
    WrapFromFull(words[0], words[1..], maxLength);
  }

  /** Words are never split: the words of the lines, in order, are exactly
      the words of the text. */
  lemma WrapTextKeepsWords(text: string, maxLength: int)
    ensures SplitEach(WrapText(text, maxLength)) == Split(text)
  {
    WrapTextJoin(text, maxLength);
    SplitOfJoin(WrapText(text, maxLength));
  }

  /** A text without a space is one line, however long it is. */
  lemma WrapTextOneWord(text: string, maxLength: int)
    requires IsWord(text)
    ensures WrapText(text, maxLength) == [text]
  {
    SplitWord(text);
  }

  /** A description of greedy wrapping that does not say how to compute it:
      the lines join back to the text, each line fits, and each line but the
      last is full. */
  ghost predicate IsGreedyWrap(text: string, maxLength: int, lines: seq<string>) {
    && |lines| >= 1
    && Join(lines) == text
    && (forall i :: 0 <= i < |lines| ==> Fits(lines[i], maxLength))
    && (forall i :: 0 <= i < |lines| - 1 ==> Full(lines, i, maxLength))
  }

  lemma JoinHead(lines: seq<string>)
    requires |lines| >= 1
    ensures lines[0] <= Join(lines)
    ensures |lines| == 1 ==> Join(lines) == lines[0]
    ensures |lines| > 1 ==> Join(lines) == lines[0] + [Space] + Join(lines[1..])
  {
  }

  /** A prefix of `r` that ends at a space or at the end of `r` holds the
      whole first word of `r`. */
  lemma {:induction false} PrefixHoldsFirstWord(x: string, r: string)
    requires x <= r
    requires x == r || r[|x|] == Space
    ensures |x| >= |FirstWord(r)|
    decreases |x|
  {
    if |x| > 0 && r[0] != Space {
      assert x[1..] <= r[1..];
      PrefixHoldsFirstWord(x[1..], r[1..]);
    }
  }

  /** A prefix of the text that ends at a space or at the end, and that is
      longer than the first line of a greedy wrapping, holds a space and is
      longer than the maximum. */
  lemma LongerFirstLineOverflows(text: string, maxLength: int, a: seq<string>, first: string)
    requires IsGreedyWrap(text, maxLength, a)
    requires first <= text
    requires first == text || text[|first|] == Space
    ensures |a[0]| < |first| ==> |first| > maxLength && !IsWord(first)
  {
    JoinHead(a);
    if |a| > 1 && |a[0]| < |first| {
      var r := Join(a[1..]);
      assert first[|a[0]|] == Space;
      var x := first[|a[0]| + 1..];
      assert first == a[0] + [Space] + x;
      assert x <= r;
      if first == text {
        assert x == r;
      } else {
        assert r[|x|] == text[|first|];
      }
      PrefixHoldsFirstWord(x, r);
      JoinHead(a[1..]);
      if |a| > 2 {
        assert a[1..][1..] == a[2..];
        FirstWordOfJoin(a[1], Join(a[2..]));
      }
      assert Full(a, 0, maxLength);
    }
  }

  /** In two greedy wrappings of one text the first lines are equal. */
  lemma GreedyFirstLinesAgree(text: string, maxLength: int, a: seq<string>, b: seq<string>)
    requires IsGreedyWrap(text, maxLength, a)
    requires IsGreedyWrap(text, maxLength, b)
    ensures a[0] == b[0]
  {
    JoinHead(a);
    JoinHead(b);
    LongerFirstLineOverflows(text, maxLength, a, b[0]);
    LongerFirstLineOverflows(text, maxLength, b, a[0]);
    assert Fits(a[0], maxLength) && Fits(b[0], maxLength);
    assert |a[0]| == |b[0]|;
  }

  /** There is only one greedy wrapping of a text. */
  lemma {:induction false} GreedyWrapUnique(text: string, maxLength: int, a: seq<string>, b: seq<string>)
    requires IsGreedyWrap(text, maxLength, a)
    requires IsGreedyWrap(text, maxLength, b)
    ensures a == b
    decreases |a|
  {
    GreedyFirstLinesAgree(text, maxLength, a, b);
    JoinHead(a);
    JoinHead(b);
    if |a| > 1 && |b| > 1 {
      var rest := text[|a[0]| + 1..];
      assert Join(a[1..]) == rest;
      assert Join(b[1..]) == rest;
      forall i | 0 <= i < |a| - 2
        ensures Full(a[1..], i, maxLength)
      {
        assert Full(a, i + 1, maxLength);
      }
      forall i | 0 <= i < |b| - 2
        ensures Full(b[1..], i, maxLength)
      {
        assert Full(b, i + 1, maxLength);
      }
      GreedyWrapUnique(rest, maxLength, a[1..], b[1..]);
      assert a == [a[0]] + a[1..];
      assert b == [b[0]] + b[1..];
    }
  }

  /** The lines of `WrapText` are exactly the greedy wrapping of the text:
      they are one, and any greedy wrapping is them. */
  lemma WrapTextIsTheGreedyWrap(text: string, maxLength: int, lines: seq<string>)
    ensures IsGreedyWrap(text, maxLength, lines) <==> lines == WrapText(text, maxLength)
  {
    WrapTextJoin(text, maxLength);
    WrapTextFits(text, maxLength);
    WrapTextFull(text, maxLength);
    if IsGreedyWrap(text, maxLength, lines) {
      GreedyWrapUnique(text, maxLength, lines, WrapText(text, maxLength));
    }
  }

  /** The wrapping of "hello world foo" at 11 characters. */
  lemma WrapTextExample()
    ensures WrapText("hello world foo", 11) == ["hello world", "foo"]
  {
    var words := ["hello", "world", "foo"];
    assert Join(words[2..]) == "foo";
    assert Join(words[1..]) == "world foo";
    assert Join(words) == "hello world foo";
    SplitJoin(words);
    assert "hello" + [Space] + "world" == "hello world";
    assert "hello world" + [Space] + "foo" == "hello world foo";
    assert WrapFrom("foo", [], 11) == ["foo"];
    assert WrapFrom("hello world", ["foo"], 11) == ["hello world", "foo"];
    assert ["world", "foo"][1..] == ["foo"];
    assert WrapFrom("hello", ["world", "foo"], 11) == ["hello world", "foo"];
  }
}
