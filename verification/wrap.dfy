/** The event renderer's greedy line breaking (cmd/farrier/events.go). */
module Wrapping {
  import opened Text

  function Length(line: seq<string>): nat {
    |Join(line, " ")|
  }

  /** A line that fits the width, or a single word too long for any line. */
  predicate Fits(line: seq<string>, width: int) {
    line != [] && (|line| == 1 || Length(line) <= width)
  }

  ghost predicate IsBreaking(lines: seq<seq<string>>, words: seq<string>, width: int) {
    Flatten(lines) == words && forall l :: l in lines ==> Fits(l, width)
  }

  /** How many words fit on a line that already takes the first `n`. */
  function Extend(words: seq<string>, n: nat, width: int): (m: nat)
    requires n <= |words|
    ensures n <= m <= |words|
    ensures m == n || Length(words[..m]) <= width
    ensures m < |words| ==> Length(words[..m + 1]) > width
    decreases |words| - n
  {
    if n < |words| && Length(words[..n + 1]) <= width then Extend(words, n + 1, width) else n
  }

  /** The number of words the first line takes. */
  function First(words: seq<string>, width: int): (n: nat)
    requires words != []
    ensures 1 <= n <= |words| && Fits(words[..n], width)
  {
    Extend(words, 1, width)
  }

  function Greedy(words: seq<string>, width: int): seq<seq<string>>
    decreases |words|
  {
    if words == [] then []
    else [words[..First(words, width)]] + Greedy(words[First(words, width)..], width)
  }

  lemma {:induction false} PrefixLength(words: seq<string>, k: nat, n: nat)
    requires k <= n <= |words|
    ensures Length(words[..k]) <= Length(words[..n])
    decreases n - k
  {
    if k < n {
      PrefixLength(words, k, n - 1);
      assert words[..n] == words[..n - 1] + [words[n - 1]];
      if n > 1 {
        JoinSnoc(words[..n - 1], words[n - 1], " ");
      }
    }
  }

  lemma {:induction false} SuffixLength(words: seq<string>, k: nat)
    requires k < |words|
    ensures Length(words[k..]) <= Length(words)
  {
    if k > 0 {
      SuffixLength(words[1..], k - 1);
      assert words[1..][k - 1..] == words[k..];
    }
  }

  /** Starting a line later never makes it end earlier. */
  lemma LaterStartReachesAsFar(words: seq<string>, k: nat, width: int)
    requires words != [] && k < First(words, width)
    ensures First(words, width) <= k + First(words[k..], width)
  {
    var n, m := First(words, width), First(words[k..], width);
    if k + m < n {
      PrefixLength(words, k + m + 1, n);
      assert words[..k + m + 1][k..] == words[k..][..m + 1];
      SuffixLength(words[..k + m + 1], k);
    }
  }

  lemma GreedyUnfolds(words: seq<string>, width: int)
    ensures words == [] ==> Greedy(words, width) == []
    ensures words != [] ==>
              Greedy(words, width) == [words[..First(words, width)]] + Greedy(words[First(words, width)..], width)
  {
    hide First;
  }

  lemma {:induction false} FewerWordsFewerLines(words: seq<string>, k: nat, width: int)
    requires k <= |words|
    ensures |Greedy(words[k..], width)| <= |Greedy(words, width)|
    decreases |words|
  {
    hide Greedy, First, Length, Fits;
    GreedyUnfolds(words, width);
    GreedyUnfolds(words[k..], width);
    if k == 0 {
      assert words[k..] == words;
    } else if k < |words| {
      var n := First(words, width);
      if k < n {
        var m := First(words[k..], width);
        LaterStartReachesAsFar(words, k, width);
        FewerWordsFewerLines(words[n..], k + m - n, width);
        assert words[n..][k + m - n..] == words[k..][m..];
      } else {
        FewerWordsFewerLines(words[n..], k - n, width);
        assert words[n..][k - n..] == words[k..];
      }
    }
  }

  lemma {:induction false} GreedyIsBreaking(words: seq<string>, width: int)
    ensures IsBreaking(Greedy(words, width), words, width)
    decreases |words|
  {
    hide Fits;
    if words != [] {
      var n := First(words, width);
      GreedyIsBreaking(words[n..], width);
      var rest := Greedy(words[n..], width);
      assert Greedy(words, width) == [words[..n]] + rest;
      assert words == words[..n] + words[n..];
      forall l | l in Greedy(words, width)
        ensures Fits(l, width)
      {
        assert l == words[..n] || l in rest;
      }
    }
  }

  /** No other breaking of the same words uses fewer lines. */
  lemma {:induction false} GreedyIsShortest(words: seq<string>, other: seq<seq<string>>, width: int)
    requires IsBreaking(other, words, width)
    ensures |Greedy(words, width)| <= |other|
    decreases |other|
  {
    if words != [] {
      assert Fits(other[0], width) by { assert other[0] in other; }
      var k, n := |other[0]|, First(words, width);
      assert words[..k] == other[0] && words[k..] == Flatten(other[1..]);
      GreedyIsShortest(words[k..], other[1..], width);
      if n < k {
        PrefixLength(words, n + 1, k);
      }
      FewerWordsFewerLines(words[k..], n - k, width);
      assert words[k..][n - k..] == words[n..];
    }
  }

  /** The loop's open line: a prefix of the first greedy line. */
  lemma OpenLine(words: seq<string>, k: nat, width: int)
    requires 0 < k < |words| && k <= First(words, width)
    ensures k < First(words, width) <==> Length(words[..k + 1]) <= width
  {
    if k < First(words, width) {
      PrefixLength(words, k + 1, First(words, width));
    }
  }

  function Render(lines: seq<seq<string>>): seq<string> {
    if lines == [] then [] else [Join(lines[0], " ")] + Render(lines[1..])
  }

  lemma {:induction false} RenderConcat(a: seq<seq<string>>, b: seq<seq<string>>)
    ensures Render(a + b) == Render(a) + Render(b)
  {
    if a == [] {
      assert a + b == b;
    } else {
      RenderConcat(a[1..], b);
      assert (a + b)[1..] == a[1..] + b;
    }
  }

  lemma {:induction false} RenderedLine(lines: seq<seq<string>>, i: nat)
    requires i < |lines|
    requires forall l, w :: l in lines && w in l ==> IsWord(w)
    ensures |Render(lines)| == |lines|
    ensures Render(lines)[i] == Join(lines[i], " ") && Fields(Render(lines)[i]) == lines[i]
  {
    FieldsOfJoin(lines[i]);
    if |lines| > 1 {
      RenderedLine(lines[1..], if i > 0 then i - 1 else 0);
    }
  }

  lemma {:induction false} LineWords(lines: seq<seq<string>>, l: seq<string>, w: string)
    requires l in lines && w in l
    ensures w in Flatten(lines)
  {
    if l != lines[0] {
      LineWords(lines[1..], l, w);
    }
  }

  /** The words of each rendered line. */
  function Reread(lines: seq<string>): seq<seq<string>> {
    seq(|lines|, i requires 0 <= i < |lines| => Fields(lines[i]))
  }

  /** The loop's progress: `closed` lines, and the open line `words[start..i]`. */
  ghost predicate Wrapped(words: seq<string>, width: int, closed: seq<seq<string>>, start: nat, i: nat) {
    && start < i <= |words|
    && i - start <= First(words[start..], width)
    && closed + Greedy(words[start..], width) == Greedy(words, width)
  }

  lemma WrapStarts(words: seq<string>, width: int)
    requires words != []
    ensures Wrapped(words, width, [], 0, 1) && words[0..1] == [words[0]]
  {
    hide Greedy, First, Length, Fits;
    assert words[0..] == words && [] + Greedy(words, width) == Greedy(words, width);
  }

  /** The text of the open line with one more word. */
  lemma LineGrows(words: seq<string>, start: nat, i: nat)
    requires start < i < |words|
    ensures Length(words[start..i + 1]) == Length(words[start..i]) + 1 + |words[i]|
    ensures Join(words[start..i + 1], " ") == Join(words[start..i], " ") + " " + words[i]
    ensures Join(words[i..i + 1], " ") == words[i]
  {
    assert words[start..i + 1] == words[start..i] + [words[i]];
    JoinSnoc(words[start..i], words[i], " ");
    assert words[i..i + 1] == [words[i]];
  }

  lemma WrapStep(words: seq<string>, width: int, closed: seq<seq<string>>, start: nat, i: nat)
    requires Wrapped(words, width, closed, start, i) && i < |words|
    ensures if Length(words[start..i + 1]) > width
            then Wrapped(words, width, closed + [words[start..i]], i, i + 1)
            else Wrapped(words, width, closed, start, i + 1)
  {
    hide Greedy, First, Length, Fits;
    var open, k := words[start..], i - start;
    OpenLine(open, k, width);
    GreedyUnfolds(open, width);
    assert open[..k] == words[start..i] && open[..k + 1] == words[start..i + 1] && open[k..] == words[i..];
    if Length(words[start..i + 1]) > width {
      LineCloses(closed, words[start..i], Greedy(words[i..], width));
    }
  }

  lemma LineCloses(closed: seq<seq<string>>, line: seq<string>, rest: seq<seq<string>>)
    ensures closed + ([line] + rest) == closed + [line] + rest
  {
  }

  /** What is left open at the end of the words is the last greedy line. */
  lemma WrapEnds(words: seq<string>, width: int, closed: seq<seq<string>>, start: nat)
    requires Wrapped(words, width, closed, start, |words|)
    ensures Render(closed) + [Join(words[start..|words|], " ")] == Render(Greedy(words, width))
  {
    hide Greedy, First, Length, Fits, Join;
    var open := words[start..];
    GreedyUnfolds(open, width);
    GreedyUnfolds(open[|open|..], width);
    assert open[..|open|] == open == words[start..|words|] && open[|open|..] == [];
    assert Greedy(open, width) == [open];
    RenderConcat(closed, [open]);
    assert [open][1..] == [] && Render([open]) == [Join(open, " ")];
  }

  method Wrap(text: string, width: int) returns (lines: seq<string>)
    ensures width <= 0 || Fields(text) == [] ==> lines == [text]
    ensures width > 0 && Fields(text) != [] ==>
              && (forall i :: 0 <= i < |lines| ==> lines[i] == Join(Fields(lines[i]), " "))
              && IsBreaking(Reread(lines), Fields(text), width)
              && forall other :: IsBreaking(other, Fields(text), width) ==> |lines| <= |other|
  {
    hide Fields, Join, Wrapped, Render, Greedy, IsBreaking, Reread, IsWord;
    var fields := Fields(text);
    if width <= 0 || fields == [] {
      return [text];
    }
    lines := [];
    var line := fields[0];
    ghost var closed, start := [], 0;
    WrapStarts(fields, width);
    NothingRendered(fields[0]);
    for i := 1 to |fields|
      invariant start < i
      invariant Wrapped(fields, width, closed, start, i)
      invariant line == Join(fields[start..i], " ") && lines == Render(closed)
    {
      var word := fields[i];
      LineGrows(fields, start, i);
      WrapStep(fields, width, closed, start, i);
      if |line| + 1 + |word| > width {
        LineRendered(closed, fields[start..i]);
        lines := lines + [line];
        closed := closed + [fields[start..i]];
        start := i;
        line := word;
        continue;
      }
      line := line + " " + word;
    }
    lines := lines + [line];
    WrapEnds(fields, width, closed, start);
    WrapMeets(fields, width, lines);
  }

  lemma NothingRendered(word: string)
    ensures Render([]) == [] && Join([word], " ") == word
  {
  }

  lemma LineRendered(closed: seq<seq<string>>, line: seq<string>)
    ensures Render(closed + [line]) == Render(closed) + [Join(line, " ")]
  {
    RenderConcat(closed, [line]);
    assert [line][1..] == [];
    hide Join;
  }

  lemma WrapMeets(fields: seq<string>, width: int, lines: seq<string>)
    requires forall w :: w in fields ==> IsWord(w)
    requires lines == Render(Greedy(fields, width))
    ensures forall i :: 0 <= i < |lines| ==> lines[i] == Join(Fields(lines[i]), " ")
    ensures IsBreaking(Reread(lines), fields, width)
    ensures forall other :: IsBreaking(other, fields, width) ==> |lines| <= |other|
  {
    var greedy := Greedy(fields, width);
    GreedyIsBreaking(fields, width);
    forall l, w | l in greedy && w in l
      ensures IsWord(w)
    {
      LineWords(greedy, l, w);
    }
    forall i | 0 <= i < |greedy|
      ensures |lines| == |greedy| && lines[i] == Join(greedy[i], " ") && Fields(lines[i]) == greedy[i]
    {
      RenderedLine(greedy, i);
    }
    assert greedy == [] ==> lines == [];
    assert Reread(lines) == greedy;
    forall other | IsBreaking(other, fields, width)
      ensures |lines| <= |other|
    {
      GreedyIsShortest(fields, other, width);
    }
  }
}
