/** Which lines of a HAL source say a net: words are what white space separates, and
    arrows between the pins carry no meaning. */
module HalLines {
  import opened Words
  import opened Text
  import opened HalValidation

  predicate White(c: char) {
    c == ' ' || c == '\t' || c == '\n' || c as int == 12 || c == '\r'
  }

  predicate Blank(s: string) {
    forall i | 0 <= i < |s| :: White(s[i])
  }

  predicate IsWord(s: string) {
    s != "" && forall i | 0 <= i < |s| :: !White(s[i])
  }

  /** Words with gaps between them; the last gap is what follows the last word. */
  function Spread(words: seq<string>, gaps: seq<string>): string
    requires |words| == |gaps|
  {
    if words == [] then "" else words[0] + gaps[0] + Spread(words[1..], gaps[1..])
  }

  /** Every gap is blank, and none but the last is empty. */
  predicate Separates(words: seq<string>, gaps: seq<string>) {
    && |words| == |gaps|
    && (forall w <- words :: IsWord(w))
    && (forall i | 0 <= i < |gaps| :: Blank(gaps[i]) && (i < |gaps| - 1 ==> gaps[i] != ""))
  }

  lemma SameSpace(c: char)
    ensures IsAsciiSpace(c) <==> White(c)
  {
  }

  lemma {:induction false} SkipsBlank(gap: string, s: string)
    requires Blank(gap)
    ensures SplitWords(gap + s) == SplitWords(s)
  {
    if gap == "" {
      assert gap + s == s;
    } else {
      assert (gap + s)[1..] == gap[1..] + s && (gap + s)[0] == gap[0];
      SkipsBlank(gap[1..], s);
    }
  }

  lemma {:induction false} TakesWord(word: string, s: string)
    requires IsWord(word) && (s == "" || White(s[0]))
    ensures SplitWords(word + s) == [word] + SplitWords(s)
  {
    var all := word + s;
    assert all[0] == word[0] && all[1..] == word[1..] + s && word == [word[0]] + word[1..];
    if |word| == 1 {
      assert all[1..] == s && word == [word[0]];
      assert s != "" ==> all[1] == s[0];
    } else {
      assert all[1] == word[1];
      TakesWord(word[1..], s);
    }
  }

  /** Words and gaps, put together, are split into the words again. */
  lemma {:induction false} SplitsSpread(words: seq<string>, gaps: seq<string>)
    requires Separates(words, gaps)
    ensures SplitWords(Spread(words, gaps)) == words
  {
    if words != [] {
      var rest := Spread(words[1..], gaps[1..]);
      SplitsSpread(words[1..], gaps[1..]);
      assert words[0] in words;
      hide SplitWords;
      SkipsBlank(gaps[0], rest);
      var tail := gaps[0] + rest;
      if gaps[0] == "" {
        assert words[1..] == [] && tail == "";
      } else {
        assert tail[0] == gaps[0][0];
      }
      assert Spread(words, gaps) == words[0] + tail;
      TakesWord(words[0], tail);
      assert words == [words[0]] + words[1..];
    }
  }

  /** Every text is blank space, then its words with gaps between them. */
  lemma {:induction false} EveryTextIsSpread(s: string) returns (front: string, gaps: seq<string>)
    ensures Blank(front) && Separates(SplitWords(s), gaps) && s == front + Spread(SplitWords(s), gaps)
  {
    if s == "" {
      front, gaps := "", [];
    } else {
      assert s == [s[0]] + s[1..];
      SameSpace(s[0]);
      front, gaps := EveryTextIsSpread(s[1..]);
      var rest := SplitWords(s[1..]);
      if White(s[0]) {
        front := [s[0]] + front;
      } else if |s| > 1 && !White(s[1]) && rest != [] {
        SameSpace(s[1]);
        Prepend(s[0], s[1..], rest, front, gaps);
        front := "";
      } else {
        if |s| > 1 {
          SameSpace(s[1]);
        }
        StartWord(s[0], s[1..], rest, front, gaps);
        gaps := [front] + gaps;
        front := "";
      }
    }
  }

  lemma HeadOfFront(front: string, tail: string)
    ensures front != "" && Blank(front) ==> White((front + tail)[0])
    ensures front == "" ==> front + tail == tail
  {
  }

  lemma LongerWord(c: char, word: string)
    requires !White(c) && IsWord(word)
    ensures IsWord([c] + word)
  {
  }

  lemma SeparatesRest(words: seq<string>, gaps: seq<string>)
    ensures words != [] && Separates(words, gaps) ==>
              && IsWord(words[0]) && Separates(words[1..], gaps[1..]) && Blank(gaps[0])
              && (gaps[0] == "" ==> |words| == 1)
  {
    hide IsWord, Blank;
    if words != [] && Separates(words, gaps) {
      assert words[0] in words;
      forall w <- words[1..] ensures IsWord(w) {
        assert w in words;
      }
    }
  }

  lemma SeparatesMore(word: string, gap: string, words: seq<string>, gaps: seq<string>)
    requires IsWord(word) && Blank(gap) && Separates(words, gaps) && (gap == "" ==> words == [])
    ensures Separates([word] + words, [gap] + gaps)
    ensures Spread([word] + words, [gap] + gaps) == word + gap + Spread(words, gaps)
  {
    hide IsWord, Blank;
    var all, between := [word] + words, [gap] + gaps;
    assert all[1..] == words && between[1..] == gaps;
    forall i | 0 <= i < |between| ensures Blank(between[i]) && (i < |between| - 1 ==> between[i] != "") {
      if i > 0 {
        assert between[i] == gaps[i - 1];
      }
    }
  }

  lemma Prepend(c: char, s: string, rest: seq<string>, front: string, gaps: seq<string>)
    requires !White(c) && s != "" && !White(s[0]) && rest != []
    requires Blank(front) && Separates(rest, gaps) && s == front + Spread(rest, gaps)
    ensures var words := [[c] + rest[0]] + rest[1..];
            Separates(words, gaps) && [c] + s == Spread(words, gaps)
  {
    HeadOfFront(front, Spread(rest, gaps));
    SeparatesRest(rest, gaps);
    LongerWord(c, rest[0]);
    hide Separates, Blank, IsWord, White;
    var word, gap, tail := rest[0], gaps[0], Spread(rest[1..], gaps[1..]);
    assert s == word + gap + tail;
    hide Spread;
    SeparatesMore([c] + word, gap, rest[1..], gaps[1..]);
    assert gaps == [gap] + gaps[1..];
    Regroup([c], word, gap, tail);
  }

  lemma Regroup(a: string, b: string, c: string, d: string)
    ensures a + (b + c + d) == (a + b) + c + d
  {
  }

  lemma StartWord(c: char, s: string, rest: seq<string>, front: string, gaps: seq<string>)
    requires !White(c) && (s == "" || White(s[0]) || rest == [])
    requires Blank(front) && Separates(rest, gaps) && s == front + Spread(rest, gaps)
    ensures Separates([[c]] + rest, [front] + gaps) && [c] + s == Spread([[c]] + rest, [front] + gaps)
  {
    if rest != [] {
      SeparatesRest(rest, gaps);
      HeadOfFront(front, Spread(rest, gaps));
      assert Spread(rest, gaps)[0] == rest[0][0];
    }
    SeparatesMore([c], front, rest, gaps);
    hide Spread, Separates;
    Regroup([c], front, Spread(rest, gaps), "");
    assert front + Spread(rest, gaps) + "" == front + Spread(rest, gaps);
    assert [c] + front + Spread(rest, gaps) + "" == [c] + front + Spread(rest, gaps);
  }

  // ----------------------------------------------------------------- net commands

  predicate Arrow(word: string) {
    word == "=>" || word == "<=" || word == "<=>"
  }

  /** `pins` are the items that are no arrows, in order. */
  predicate PinsOf(items: seq<string>, pins: seq<string>) {
    if items == [] then pins == []
    else if Arrow(items[|items| - 1]) then PinsOf(items[..|items| - 1], pins)
    else pins != [] && pins[|pins| - 1] == items[|items| - 1] && PinsOf(items[..|items| - 1], pins[..|pins| - 1])
  }

  lemma {:induction false} ArrowsDropOut(items: seq<string>)
    ensures PinsOf(items, WithoutArrows(items))
  {
    if items != [] {
      var n := |items| - 1;
      ArrowsDropOut(items[..n]);
      LastItem(items[..n], items[n]);
      assert items == items[..n] + [items[n]];
      if !Arrow(items[n]) {
        var pins := WithoutArrows(items);
        assert pins[..|pins| - 1] == WithoutArrows(items[..n]);
      }
    }
  }

  lemma {:induction false} LastItem(items: seq<string>, item: string)
    ensures WithoutArrows(items + [item]) == if Arrow(item) then WithoutArrows(items) else WithoutArrows(items) + [item]
  {
    if items == [] {
      assert [] + [item] == [item] && [item][1..] == [];
    } else {
      assert (items + [item])[1..] == items[1..] + [item];
      LastItem(items[1..], item);
    }
  }

  /** A line that says `net`, a signal and items, however they are spaced, and with or
      without a comment behind, nets that signal to the items that are no arrows. */
  lemma NetLineIsRead(front: string, words: seq<string>, gaps: seq<string>, comment: Option<string>)
    requires Blank(front) && Separates(words, gaps) && |words| >= 2 && words[0] == "net"
    requires '#' !in front + Spread(words, gaps)
    ensures var code := front + Spread(words, gaps);
            var net := NetOf(match comment case None => code case Some(c) => code + "#" + c);
            net.Some? && net.value.signal == words[1] && PinsOf(words[2..], net.value.pins)
  {
    var code := front + Spread(words, gaps);
    SkipsBlank(front, Spread(words, gaps));
    SplitsSpread(words, gaps);
    ArrowsDropOut(words[2..]);
    hide SplitWords, Spread, PinsOf, WithoutArrows, Separates;
    CodeIsBeforeComment(code, comment);
  }

  lemma CodeIsBeforeComment(code: string, comment: Option<string>)
    requires '#' !in code
    ensures Code(match comment case None => code case Some(c) => code + "#" + c) == code
  {
    match comment
    case None => NoSeparator(code, '#');
    case Some(c) => PartitionExactly(code + "#" + c, '#', code, c);
  }

  /** And a line that nets anything is such a line. */
  lemma NetIsANetLine(line: string) returns (front: string, words: seq<string>, gaps: seq<string>)
    requires NetOf(line).Some?
    ensures Blank(front) && Separates(words, gaps) && |words| >= 2 && words[0] == "net"
    ensures Code(line) == front + Spread(words, gaps) && '#' !in Code(line)
    ensures Code(line) == line || Code(line) + "#" <= line
    ensures NetOf(line).value.signal == words[1] && PinsOf(words[2..], NetOf(line).value.pins)
  {
    words := SplitWords(Code(line));
    front, gaps := EveryTextIsSpread(Code(line));
    ArrowsDropOut(words[2..]);
    hide SplitWords, Spread, PinsOf, WithoutArrows, Separates;
    CodeExactly(line);
  }

  lemma CodeExactly(line: string)
    ensures '#' !in Code(line) && (Code(line) == line || Code(line) + "#" <= line)
  {
    PartitionCuts(line, '#');
  }

  // ------------------------------------------------------------------- lines of a text

  function WithoutReturn(line: string): string {
    if line != "" && line[|line| - 1] == '\r' then line[..|line| - 1] else line
  }

  /** Lines are the pieces between line feeds, all but the last of them without a final
      carriage return, and the last only if it is not empty. */
  predicate ArePieces(lines: seq<string>, pieces: seq<string>) {
    && pieces != []
    && var n := |pieces| - 1;
    && |lines| == (if pieces[n] == "" then n else n + 1)
    && (forall i | 0 <= i < n :: lines[i] == WithoutReturn(pieces[i]))
    && (pieces[n] != "" ==> lines[n] == pieces[n])
  }

  lemma LinesArePieces(text: string)
    ensures ArePieces(TextLines(text), Split(text, '\n'))
  {
    hide Split;
  }

  lemma OneMorePiece(line: string, lines: seq<string>, pieces: seq<string>, all: seq<string>)
    requires ArePieces(lines, pieces) && ArePieces(all, [line] + pieces)
    ensures all == [WithoutReturn(line)] + lines
  {
    hide WithoutReturn;
    var n := |pieces|;
    assert ([line] + pieces)[n] == pieces[n - 1];
    forall k | 0 <= k < |lines| ensures all[k + 1] == lines[k] {
      assert ([line] + pieces)[k + 1] == pieces[k];
    }
  }

  /** A line ends at its line feed, a carriage return before which is dropped; the last
      line needs none, and is no line when it is empty. */
  lemma LinesOfText(line: string, rest: string)
    requires '\n' !in line
    ensures TextLines(line) == if line == "" then [] else [line]
    ensures TextLines(line + ['\n'] + rest) == [WithoutReturn(line)] + TextLines(rest)
  {
    var text := line + ['\n'] + rest;
    SplitOfFree(line, '\n');
    SplitOfPrefixed(line, rest, '\n');
    LinesArePieces(line);
    LinesArePieces(rest);
    LinesArePieces(text);
    hide Split, TextLines, WithoutReturn;
    OneMorePiece(line, TextLines(rest), Split(rest, '\n'), TextLines(text));
  }
}
