// wrapText of src/components/MindmapCanvas.tsx: the title is split on
// spaces and laid out greedily into lines no wider than maxWidth (as far as
// single words allow), and the block of lines is centred vertically on y.
// measureText is the abstract `width` function.
module TextWrap {
  import opened Sequences

  // ---------------------------------------------------------------------
  // String.prototype.split(' ') and its inverse
  // ---------------------------------------------------------------------

  predicate NoSpace(w: string)
  {
    ' ' !in w
  }

  predicate AllNoSpace(ws: seq<string>)
  {
    forall k :: 0 <= k < |ws| ==> NoSpace(ws[k])
  }

  /** text.split(' '): the pieces between single spaces, empty ones included; never an empty list. */
  function Split(s: string): (ws: seq<string>)
    ensures |ws| >= 1 && AllNoSpace(ws)
  {
    if s == [] then [[]]
    else
      var rest := Split(s[1..]);
      if s[0] == ' ' then [[]] + rest else [[s[0]] + rest[0]] + rest[1..]
  }

  /** The pieces put back together with one space between neighbours. */
  function Join(ws: seq<string>): string
  {
    if |ws| == 0 then []
    else if |ws| == 1 then ws[0]
    else ws[0] + " " + Join(ws[1..])
  }

  /** Joining the pieces of a split gives the text back. */
  lemma {:induction false} SplitJoin(s: string)
    ensures Join(Split(s)) == s
  {
    if s != [] {
      var rest := Split(s[1..]);
      SplitJoin(s[1..]);
      if s[0] == ' ' {
        assert Join([[]] + rest) == " " + Join(rest);
      } else {
        JoinFirst(s[0], rest);
      }
      assert s == [s[0]] + s[1..];
    }
  }

  /** Join of a first piece and a non-empty rest. */
  lemma JoinCons(w: string, tl: seq<string>)
    requires |tl| >= 1
    ensures Join([w] + tl) == w + " " + Join(tl)
  {
    assert ([w] + tl)[1..] == tl;
  }

  lemma JoinFirst(c: char, ws: seq<string>)
    requires |ws| >= 1
    ensures Join([[c] + ws[0]] + ws[1..]) == [c] + Join(ws)
  {
    var w, tl := [c] + ws[0], ws[1..];
    if |tl| >= 1 {
      JoinCons(w, tl);
      HeadTail(ws);
      JoinCons(ws[0], tl);
      Assoc([c], ws[0], " ");
      Assoc([c], ws[0] + " ", Join(tl));
    } else {
      assert [w] + tl == [w];
    }
  }

  /** Splitting the join of space-free pieces gives the pieces back. */
  lemma {:induction false} JoinSplit(ws: seq<string>)
    requires |ws| >= 1 && AllNoSpace(ws)
    ensures Split(Join(ws)) == ws
    decreases |ws|, |ws[0]|
  {
    if |ws[0]| > 0 {
      var w := ws[0];
      var tail := [w[1..]] + ws[1..];
      assert AllNoSpace(tail) by {
        assert w[1..] == w[1..];
        forall k | 0 <= k < |tail| ensures NoSpace(tail[k]) {
          if k == 0 {
            assert forall c :: c in w[1..] ==> c in w;
          } else {
            assert tail[k] == ws[k];
          }
        }
      }
      JoinSplit(tail);
      assert tail[0] == w[1..] && tail[1..] == ws[1..];
      HeadTail(w);
      HeadTail(ws);
      assert [[w[0]] + tail[0]] + tail[1..] == ws;
      JoinFirst(w[0], tail);
      var j := [w[0]] + Join(tail);
      assert j[0] == w[0] && j[1..] == Join(tail);
      assert w[0] != ' ' by { assert w[0] in w; }
      assert Split(j) == [[w[0]] + tail[0]] + tail[1..];
    } else if |ws| > 1 {
      JoinSplit(ws[1..]);
      assert Join(ws) == " " + Join(ws[1..]);
      assert [[]] + ws[1..] == ws;
    }
  }

  /** Joining two lists of pieces joins their joins with a space. */
  lemma {:induction false} JoinAppend(a: seq<string>, b: seq<string>)
    requires |a| >= 1 && |b| >= 1
    ensures Join(a + b) == Join(a) + " " + Join(b)
    decreases |a|
  {
    if |a| > 1 {
      JoinAppend(a[1..], b);
      assert (a + b)[1..] == a[1..] + b;
    } else {
      assert (a + b)[1..] == b;
    }
  }

  /** The pieces of "a b" are the pieces of a followed by those of b. */
  lemma SplitSpace(a: string, b: string)
    ensures Split(a + " " + b) == Split(a) + Split(b)
  {
    SplitJoin(a);
    SplitJoin(b);
    JoinAppend(Split(a), Split(b));
    JoinSplit(Split(a) + Split(b));
  }

  /** A piece without spaces is its own split. */
  lemma SplitWord(w: string)
    requires NoSpace(w)
    ensures Split(w) == [w]
  {
    JoinSplit([w]);
  }

  // ---------------------------------------------------------------------
  // The greedy line breaking, as a function of the words read so far
  // ---------------------------------------------------------------------

  /** The lines pushed so far and the current line. */
  datatype Lines = Lines(done: seq<string>, current: string)

  /** The tentative line: the word appended to the current line, or the word alone when the line is empty. */
  function Tentative(current: string, word: string): string
  {
    if current != [] then current + " " + word else word
  }

  /** One word of the forEach: break before it if the tentative line is too wide and the current line is not empty. */
  function Step(st: Lines, word: string, maxWidth: real, width: string -> real): Lines
  {
    var testLine := Tentative(st.current, word);
    if width(testLine) > maxWidth && st.current != [] then Lines(st.done + [st.current], word)
    else Lines(st.done, testLine)
  }

  /** The state after the words of `words`, in order. */
  function Run(words: seq<string>, maxWidth: real, width: string -> real): Lines
  {
    if words == [] then Lines([], [])
    else Step(Run(words[..|words| - 1], maxWidth, width), words[|words| - 1], maxWidth, width)
  }

  /** The last line is pushed when it is not empty. */
  function Finish(st: Lines): seq<string>
  {
    if st.current != [] then st.done + [st.current] else st.done
  }

  /** The lines wrapText draws for `words`. */
  function Wrap(words: seq<string>, maxWidth: real, width: string -> real): seq<string>
  {
    Finish(Run(words, maxWidth, width))
  }

  // ---------------------------------------------------------------------
  // What the lines keep
  // ---------------------------------------------------------------------

  /** The non-empty pieces, in order. */
  function NonEmpty(ws: seq<string>): seq<string>
  {
    if ws == [] then []
    else NonEmpty(ws[..|ws| - 1]) + (if ws[|ws| - 1] != [] then [ws[|ws| - 1]] else [])
  }

  lemma {:induction false} NonEmptyAppend(a: seq<string>, b: seq<string>)
    ensures NonEmpty(a + b) == NonEmpty(a) + NonEmpty(b)
    decreases |b|
  {
    if b == [] {
      assert a + b == a;
    } else {
      var init := b[..|b| - 1];
      NonEmptyAppend(a, init);
      assert (a + b)[..|a + b| - 1] == a + init;
      assert (a + b)[|a + b| - 1] == b[|b| - 1];
      Regroup(NonEmpty(a + b), NonEmpty(a) + NonEmpty(init), NonEmpty(a), NonEmpty(init),
              if b[|b| - 1] != [] then [b[|b| - 1]] else []);
    }
  }

  /** The words of a list of lines: the non-empty pieces of each line, line after line. */
  function LineWords(lines: seq<string>): seq<string>
  {
    if lines == [] then [] else LineWords(lines[..|lines| - 1]) + NonEmpty(Split(lines[|lines| - 1]))
  }

  lemma LineWordsSnoc(lines: seq<string>, line: string)
    ensures LineWords(lines + [line]) == LineWords(lines) + NonEmpty(Split(line))
  {
    assert (lines + [line])[..|lines|] == lines;
  }

  /** The words of the lines pushed so far and of the current line. */
  function StateWords(st: Lines): seq<string>
  {
    LineWords(st.done) + NonEmpty(Split(st.current))
  }

  /** One word adds itself, if it is not empty, to the words of the state. */
  lemma StepKeepsWords(st: Lines, word: string, maxWidth: real, width: string -> real)
    requires NoSpace(word)
    ensures StateWords(Step(st, word, maxWidth, width)) == StateWords(st) + NonEmpty([word])
  {
    SplitWord(word);
    var lw, cw := LineWords(st.done), NonEmpty(Split(st.current));
    if width(Tentative(st.current, word)) > maxWidth && st.current != [] {
      assert Step(st, word, maxWidth, width) == Lines(st.done + [st.current], word);
      LineWordsSnoc(st.done, st.current);
    } else if st.current != [] {
      assert Step(st, word, maxWidth, width) == Lines(st.done, st.current + " " + word);
      SplitSpace(st.current, word);
      NonEmptyAppend(Split(st.current), [word]);
      Assoc(lw, cw, NonEmpty([word]));
    } else {
      assert Step(st, word, maxWidth, width) == Lines(st.done, word);
      assert cw == NonEmpty([[]]) == [];
      EmptyRight(lw, cw);
    }
  }

  lemma AllNoSpaceInit(words: seq<string>)
    requires words != [] && AllNoSpace(words)
    ensures AllNoSpace(words[..|words| - 1]) && NoSpace(words[|words| - 1])
  {
    var init := words[..|words| - 1];
    forall k | 0 <= k < |init| ensures NoSpace(init[k]) {
      assert init[k] == words[k];
    }
  }

  /** The words of the state after reading `words` are the non-empty words read. */
  lemma {:induction false} RunKeepsWords(words: seq<string>, maxWidth: real, width: string -> real)
    requires AllNoSpace(words)
    ensures StateWords(Run(words, maxWidth, width)) == NonEmpty(words)
  {
    if words == [] {
      assert NonEmpty(Split([])) == NonEmpty([[]]);
    } else {
      var init, word := words[..|words| - 1], words[|words| - 1];
      var st := Run(init, maxWidth, width);
      assert Run(words, maxWidth, width) == Step(st, word, maxWidth, width);
      AllNoSpaceInit(words);
      RunKeepsWords(init, maxWidth, width);
      StepKeepsWords(st, word, maxWidth, width);
      assert words == init + [word];
      NonEmptyAppend(init, [word]);
    }
  }

  /**
   * Every non-empty word of the text appears in the lines, in the text's
   * order, exactly once (runs of spaces are not words).
   */
  lemma WrapKeepsWords(text: string, maxWidth: real, width: string -> real)
    ensures LineWords(Wrap(Split(text), maxWidth, width)) == NonEmpty(Split(text))
  {
    var st := Run(Split(text), maxWidth, width);
    RunKeepsWords(Split(text), maxWidth, width);
    if st.current != [] {
      LineWordsSnoc(st.done, st.current);
    } else {
      assert NonEmpty(Split(st.current)) == NonEmpty([[]]);
    }
  }

  /** A line that is wider than the limit is a single word of the input. */
  predicate FitsOrWord(line: string, words: seq<string>, maxWidth: real, width: string -> real)
  {
    width(line) <= maxWidth || line in words
  }

  /** Every pushed line is non-empty and fits or is a word; so is the current line when it is not empty. */
  predicate LinesFit(st: Lines, words: seq<string>, maxWidth: real, width: string -> real)
  {
    && (forall k :: 0 <= k < |st.done| ==> st.done[k] != [] && FitsOrWord(st.done[k], words, maxWidth, width))
    && (st.current != [] ==> FitsOrWord(st.current, words, maxWidth, width))
  }

  lemma StepLinesFit(st: Lines, word: string, words: seq<string>, maxWidth: real, width: string -> real)
    requires LinesFit(st, words, maxWidth, width) && word in words
    ensures LinesFit(Step(st, word, maxWidth, width), words, maxWidth, width)
  {
  }

  lemma LinesFitMore(st: Lines, words: seq<string>, more: seq<string>, maxWidth: real, width: string -> real)
    requires LinesFit(st, words, maxWidth, width)
    ensures LinesFit(st, words + more, maxWidth, width)
  {
    forall line | line in words ensures line in words + more {
    }
  }

  lemma {:induction false} RunLinesFit(words: seq<string>, maxWidth: real, width: string -> real)
    ensures LinesFit(Run(words, maxWidth, width), words, maxWidth, width)
  {
    if words != [] {
      var init, word := words[..|words| - 1], words[|words| - 1];
      RunLinesFit(init, maxWidth, width);
      assert words == init + [word];
      LinesFitMore(Run(init, maxWidth, width), init, [word], maxWidth, width);
      StepLinesFit(Run(init, maxWidth, width), word, words, maxWidth, width);
    }
  }

  /**
   * Every line is non-empty, and every line is at most maxWidth wide unless
   * it is a single word: a line is only extended by a word when the result
   * fits, so an over-wide word ends up alone on its line.
   */
  lemma WrapLinesFit(words: seq<string>, maxWidth: real, width: string -> real)
    ensures forall k :: 0 <= k < |Wrap(words, maxWidth, width)| ==>
              Wrap(words, maxWidth, width)[k] != []
              && FitsOrWord(Wrap(words, maxWidth, width)[k], words, maxWidth, width)
  {
    RunLinesFit(words, maxWidth, width);
  }

  /** Between two lines: the first word of the second line did not fit after the first line. */
  predicate BrokeFor(lines: seq<string>, maxWidth: real, width: string -> real)
  {
    forall k :: 0 <= k < |lines| - 1 ==> width(lines[k] + " " + Split(lines[k + 1])[0]) > maxWidth
  }

  /** A break after the current line: the new line starts with the word that did not fit. */
  lemma PushBreaks(before: seq<string>, word: string, maxWidth: real, width: string -> real)
    requires |before| >= 1 && NoSpace(word)
    requires BrokeFor(before, maxWidth, width)
    requires width(before[|before| - 1] + " " + word) > maxWidth
    ensures BrokeFor(before + [word], maxWidth, width)
  {
    SplitWord(word);
    var after := before + [word];
    forall k | 0 <= k < |after| - 1 ensures width(after[k] + " " + Split(after[k + 1])[0]) > maxWidth {
      if k < |before| - 1 {
        assert after[k] == before[k] && after[k + 1] == before[k + 1];
      }
    }
  }

  /** Extending the last line keeps its first word, so the earlier breaks still hold. */
  lemma ExtendBreaks(done: seq<string>, current: string, word: string, maxWidth: real, width: string -> real)
    requires NoSpace(word)
    requires BrokeFor(done + [current], maxWidth, width)
    ensures BrokeFor(done + [current + " " + word], maxWidth, width)
  {
    var line := current + " " + word;
    SplitSpace(current, word);
    assert Split(line)[0] == Split(current)[0];
    var before, after := done + [current], done + [line];
    forall k | 0 <= k < |after| - 1 ensures width(after[k] + " " + Split(after[k + 1])[0]) > maxWidth {
      assert after[k] == before[k];
      assert width(before[k] + " " + Split(before[k + 1])[0]) > maxWidth;
      if k + 1 < |done| {
        assert after[k + 1] == before[k + 1];
      } else {
        assert after[k + 1] == line && before[k + 1] == current;
      }
    }
  }

  lemma StepBreaks(st: Lines, word: string, maxWidth: real, width: string -> real)
    requires st.current != [] && NoSpace(word) && word != []
    requires BrokeFor(Finish(st), maxWidth, width)
    ensures Step(st, word, maxWidth, width).current != []
    ensures BrokeFor(Finish(Step(st, word, maxWidth, width)), maxWidth, width)
  {
    if width(Tentative(st.current, word)) > maxWidth {
      PushBreaks(st.done + [st.current], word, maxWidth, width);
    } else {
      ExtendBreaks(st.done, st.current, word, maxWidth, width);
    }
  }

  lemma {:induction false} RunBreaks(words: seq<string>, maxWidth: real, width: string -> real)
    requires words != [] && AllNoSpace(words) && forall k :: 0 <= k < |words| ==> words[k] != []
    ensures Run(words, maxWidth, width).current != []
    ensures BrokeFor(Finish(Run(words, maxWidth, width)), maxWidth, width)
  {
    var init, word := words[..|words| - 1], words[|words| - 1];
    AllNoSpaceInit(words);
    if init == [] {
      assert Run(init, maxWidth, width) == Lines([], []);
    } else {
      assert forall k :: 0 <= k < |init| ==> init[k] != [] by {
        forall k | 0 <= k < |init| ensures init[k] != [] {
          assert init[k] == words[k];
        }
      }
      RunBreaks(init, maxWidth, width);
      StepBreaks(Run(init, maxWidth, width), word, maxWidth, width);
    }
  }

  /**
   * When the text has no empty words, the first word of each line would not
   * have fitted at the end of the line before it.
   */
  lemma WrapBreaksBeforeNextWord(words: seq<string>, maxWidth: real, width: string -> real)
    requires words != [] && AllNoSpace(words) && forall k :: 0 <= k < |words| ==> words[k] != []
    ensures BrokeFor(Wrap(words, maxWidth, width), maxWidth, width)
  {
    RunBreaks(words, maxWidth, width);
  }

  /**
   * Word i closed a line: after the words before it the current line was
   * `line`, non-empty, with k lines already done, and the tentative line with
   * word i was wider than maxWidth.
   */
  predicate BreakAt(words: seq<string>, i: int, k: int, line: string, maxWidth: real, width: string -> real)
  {
    && 0 <= i < |words|
    && Run(words[..i], maxWidth, width).current == line
    && |Run(words[..i], maxWidth, width).done| == k
    && line != []
    && width(Tentative(line, words[i])) > maxWidth
  }

  /** Line k, equal to `line`, was closed by some word of `words`. */
  ghost predicate LineClosed(words: seq<string>, k: int, line: string, maxWidth: real, width: string -> real)
  {
    exists i :: BreakAt(words, i, k, line, maxWidth, width)
  }

  /** Every finished line was closed by a word whose tentative line was too wide while the line was non-empty. */
  lemma {:induction false} RunBreaksWhenTooWide(words: seq<string>, maxWidth: real, width: string -> real)
    ensures forall k :: 0 <= k < |Run(words, maxWidth, width).done| ==>
              LineClosed(words, k, Run(words, maxWidth, width).done[k], maxWidth, width)
  {
    if words != [] {
      var init, word := words[..|words| - 1], words[|words| - 1];
      var st := Run(init, maxWidth, width);
      RunBreaksWhenTooWide(init, maxWidth, width);
      assert Run(words, maxWidth, width) == Step(st, word, maxWidth, width);
      var done := Run(words, maxWidth, width).done;
      forall k | 0 <= k < |done| ensures LineClosed(words, k, done[k], maxWidth, width) {
        if k < |st.done| {
          assert done[k] == st.done[k];
          assert LineClosed(init, k, st.done[k], maxWidth, width);
          var i :| BreakAt(init, i, k, st.done[k], maxWidth, width);
          assert words[..i] == init[..i] && words[i] == init[i];
          assert BreakAt(words, i, k, done[k], maxWidth, width);
        } else {
          assert words[..|init|] == init;
          assert BreakAt(words, |init|, k, done[k], maxWidth, width);
        }
      }
    }
  }

  /**
   * A break happens only where the tentative line was too wide and the current
   * line non-empty: every drawn line but the last was closed by such a word.
   * Empty words (from repeated spaces) are allowed.
   */
  lemma WrapBreaksWhenTooWide(words: seq<string>, maxWidth: real, width: string -> real)
    ensures forall k :: 0 <= k < |Wrap(words, maxWidth, width)| - 1 ==>
              LineClosed(words, k, Wrap(words, maxWidth, width)[k], maxWidth, width)
  {
    RunBreaksWhenTooWide(words, maxWidth, width);
    var st := Run(words, maxWidth, width);
    var lines := Wrap(words, maxWidth, width);
    assert lines == Finish(st);
    forall k | 0 <= k < |lines| - 1 ensures LineClosed(words, k, lines[k], maxWidth, width) {
      if st.current != [] {
        assert lines == st.done + [st.current];
      }
      assert k < |st.done| && lines[k] == st.done[k];
    }
  }

  // ---------------------------------------------------------------------
  // Vertical placement and the imperative loop
  // ---------------------------------------------------------------------

  /** The y of line `index` of `count` lines: startY = y - (count - 1) * lineHeight / 2, then one lineHeight per line. */
  function LineY(y: real, count: nat, lineHeight: real, index: nat): real
  {
    y - ((count as real - 1.0) * lineHeight) / 2.0 + index as real * lineHeight
  }

  /** Consecutive lines are lineHeight apart, and the first and last line are symmetric about y. */
  lemma LinesCentred(y: real, count: nat, lineHeight: real, index: nat)
    requires count >= 1
    ensures LineY(y, count, lineHeight, index + 1) - LineY(y, count, lineHeight, index) == lineHeight
    ensures (LineY(y, count, lineHeight, 0) + LineY(y, count, lineHeight, count - 1)) / 2.0 == y
  {
    assert (index + 1) as real * lineHeight == index as real * lineHeight + lineHeight;
    assert (count - 1) as real == count as real - 1.0;
  }

  /** One fillText call. */
  datatype TextDraw = TextDraw(text: string, x: real, y: real)

  /** wrapText: the words of the text are broken into lines, which are drawn centred on (x, y). */
  method WrapText(text: string, x: real, y: real, maxWidth: real, lineHeight: real, width: string -> real)
    returns (draws: seq<TextDraw>)
    ensures |draws| == |Wrap(Split(text), maxWidth, width)|
    ensures forall i :: 0 <= i < |draws| ==>
              draws[i] == TextDraw(Wrap(Split(text), maxWidth, width)[i], x, LineY(y, |draws|, lineHeight, i))
  {
    var words := Split(text);
    var lines: seq<string> := [];
    var currentLine: string := [];
    for i := 0 to |words|
      invariant Lines(lines, currentLine) == Run(words[..i], maxWidth, width)
    {
      assert words[..i + 1][..i] == words[..i];
      ghost var before := Lines(lines, currentLine);
      assert Run(words[..i + 1], maxWidth, width) == Step(before, words[i], maxWidth, width);
      var word := words[i];
      var testLine := if currentLine != [] then currentLine + " " + word else word;
      assert testLine == Tentative(currentLine, word);
      if width(testLine) > maxWidth && currentLine != [] {
        lines := lines + [currentLine];
        currentLine := word;
      } else {
        currentLine := testLine;
      }
    }
    assert words[..|words|] == words;
    ghost var ended := Lines(lines, currentLine);
    if currentLine != [] {
      lines := lines + [currentLine];
    }
    assert lines == Finish(ended) == Wrap(words, maxWidth, width);
    draws := [];
    for index := 0 to |lines|
      invariant |draws| == index
      invariant forall i :: 0 <= i < index ==> draws[i] == TextDraw(lines[i], x, LineY(y, |lines|, lineHeight, i))
    {
      draws := draws + [TextDraw(lines[index], x, LineY(y, |lines|, lineHeight, index))];
    }
  }
}
