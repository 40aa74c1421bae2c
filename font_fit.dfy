/**
 * Choosing the font size and the lines of a titlecard: the size search that
 * steps down from a quarter of the image height, the forced minimum size,
 * and the three-words-per-line fallback.
 */
module FontFit {
  import opened Optional
  import opened TextWords
  import opened WordWrap

  /** The smallest font size the search tries, and the size the fallback forces. */
  const MinFontSize: nat := 20
  /** How much each rejected size is lowered by. */
  const SizeStep: nat := 5
  /** The number of words per line of the last-resort chunker. */
  const ChunkWords: nat := 3

  /** The background image's dimensions in pixels. */
  datatype Canvas = Canvas(width: nat, height: nat)

  /** The lines to draw, the font size they are drawn at and the spaced line height. */
  datatype Layout = Layout(lines: seq<string>, fontSize: nat, lineHeight: nat)

  /** 80% of the image width, truncated. */
  function MaxTextWidth(c: Canvas): (w: nat)
    ensures 5 * w <= 4 * c.width < 5 * w + 5
  {
    4 * c.width / 5
  }

  /** The first size tried: a quarter of the image height, truncated. */
  function StartSize(c: Canvas): (size: nat) {
    c.height / 4
  }

  /** A block of the given height fits in 80% of the image height. */
  predicate FitsHeight(c: Canvas, blockHeight: int) {
    5 * blockHeight <= 4 * c.height
  }

  /** A size is accepted when wrapping succeeds and the spaced block of lines fits the height. */
  predicate Accepts(text: string, c: Canvas, m: Metrics, size: nat) {
    match GreedyWrap(m, size, MaxTextWidth(c), text)
    case None => false
    case Some(lines) => FitsHeight(c, m.lineHeight(size) * |lines|)
  }

  /** `s` is one of the sizes top, top - 5, top - 10, ... the search visits from `top`. */
  predicate OnLadder(top: int, s: int) {
    s <= top && (top - s) % SizeStep == 0
  }

  /** The sizes below `top` on its ladder are exactly those on the ladder from the next size down. */
  lemma LadderStep(top: int)
    ensures forall s :: OnLadder(top - SizeStep, s) ==> OnLadder(top, s)
    ensures forall s :: OnLadder(top, s) && s < top ==> OnLadder(top - SizeStep, s)
  {
  }

  /**
   * The size at which the search loop stops when it is at `size`: the first
   * accepted size among size, size - 5, size - 10, ... that is at least the
   * minimum, or the first one below the minimum when none is accepted.
   */
  function SearchStop(text: string, c: Canvas, m: Metrics, size: int): (stop: int)
    ensures OnLadder(size, stop)
    ensures stop >= MinFontSize ==> Accepts(text, c, m, stop)
    ensures stop < MinFontSize ==> stop == size || stop >= MinFontSize - SizeStep
    decreases size
  {
    if size < MinFontSize then size
    else if Accepts(text, c, m, size) then size
    else LadderStep(size); SearchStop(text, c, m, size - SizeStep)
  }

  /** Every size the search passes over on its way down to where it stops was rejected. */
  lemma {:induction false} SearchRejectsAbove(text: string, c: Canvas, m: Metrics, size: int)
    ensures forall s: nat :: SearchStop(text, c, m, size) < s && OnLadder(size, s) ==> !Accepts(text, c, m, s)
    decreases size
  {
    if size >= MinFontSize && !Accepts(text, c, m, size) {
      SearchRejectsAbove(text, c, m, size - SizeStep);
      LadderStep(size);
    }
  }

  /** A rejected size of at least the minimum sends the search on to the next size down. */
  lemma SearchPassesRejected(text: string, c: Canvas, m: Metrics, size: int, wrapped: Option<seq<string>>)
    requires size >= MinFontSize && wrapped == GreedyWrap(m, size, MaxTextWidth(c), text)
    requires wrapped.Some? ==> !FitsHeight(c, m.lineHeight(size) * |wrapped.value|)
    ensures SearchStop(text, c, m, size) == SearchStop(text, c, m, size - SizeStep)
  {
  }

  /** The fallback lines: each group of three consecutive words, and the one or two left over, joined by single spaces. */
  function ThreeWordLines(words: seq<string>): (lines: seq<string>)
    decreases |words|
  {
    if words == [] then []
    else if |words| <= 3 then [JoinSpace(words)]
    else [JoinSpace(words[..3])] + ThreeWordLines(words[3..])
  }

  /**
   * The last-resort chunker: words are appended to a line until the line
   * splits into three words, and any remaining words form the last line.
   */
  method ChunkByThree(text: string) returns (lines: seq<string>)
    ensures lines == ThreeWordLines(Words(text))
  {
    var words := Words(text);
    lines := [];
    var current := "";
    ghost var start := 0;
    for i := 0 to |words|
      invariant start == 3 * |lines| && start <= i < start + 3
      invariant current == JoinSpace(words[start .. i])
      invariant lines + ThreeWordLines(words[start ..]) == ThreeWordLines(words)
    {
      ChunkStep(words, lines, start, i, current);
      current := AppendWord(current, words[i]);
      if |Words(current)| >= ChunkWords {
        lines := lines + [current];
        current := "";
        start := start + 3;
      }
    }
    ThreeWordLinesLeftover(words[start ..]);
    assert words[start ..] == words[start .. |words|];
    if current != "" {
      lines := lines + [current];
    }
  }

  /**
   * One step of the chunker: the pending line extended by word i is the join
   * of the words since the last closed line; it splits into three words
   * exactly when it holds the third of them, and closing it then keeps the
   * lines closed so far a prefix of ThreeWordLines.
   */
  lemma ChunkStep(words: seq<string>, lines: seq<string>, start: nat, i: nat, current: string)
    requires AllWords(words) && start <= i < |words| && i < start + 3
    requires current == JoinSpace(words[start .. i])
    requires lines + ThreeWordLines(words[start ..]) == ThreeWordLines(words)
    ensures var next := AppendWord(current, words[i]);
      && next == JoinSpace(words[start .. i + 1])
      && (|Words(next)| >= ChunkWords <==> i + 1 == start + 3)
      && (i + 1 == start + 3 ==> (lines + [next]) + ThreeWordLines(words[i + 1 ..]) == ThreeWordLines(words))
  {
    PendingLineGrows(words, start, i);
    var next := AppendWord(current, words[i]);
    assert next == JoinSpace(words[start .. i + 1]);
    assert |Words(next)| == i + 1 - start;
    if i + 1 == start + 3 {
      ThreeWordLinesFront(words, start);
      assert lines + ThreeWordLines(words[start ..]) == (lines + [next]) + ThreeWordLines(words[i + 1 ..]);
    }
  }

  /** The chunker's pending line, extended by the next word, is the join of one more word. */
  lemma PendingLineGrows(words: seq<string>, start: nat, i: nat)
    requires AllWords(words) && start <= i < |words|
    ensures JoinSpace(words[start .. i + 1]) == AppendWord(JoinSpace(words[start .. i]), words[i])
    ensures |Words(JoinSpace(words[start .. i + 1]))| == i + 1 - start
  {
    var pending := words[start .. i];
    JoinSnoc(pending, words[i]);
    assert pending + [words[i]] == words[start .. i + 1];
    WordsOfJoin(words[start .. i + 1]);
  }

  /** The first fallback line of at least three words is the join of the first three. */
  lemma ThreeWordLinesFront(words: seq<string>, start: nat)
    requires start + 3 <= |words|
    ensures ThreeWordLines(words[start ..]) == [JoinSpace(words[start .. start + 3])] + ThreeWordLines(words[start + 3 ..])
  {
    var rest := words[start ..];
    assert rest[..3] == words[start .. start + 3];
    assert rest[3..] == words[start + 3 ..];
    if |rest| == 3 {
      assert rest[..3] == rest;
    }
  }

  /** Fewer than three words make at most one fallback line. */
  lemma ThreeWordLinesLeftover(rest: seq<string>)
    requires AllWords(rest) && |rest| < 3
    ensures ThreeWordLines(rest) == if JoinSpace(rest) != "" then [JoinSpace(rest)] else []
  {
  }

  /**
   * There are ceil(n / 3) fallback lines for n words; every one is
   * non-empty and splits into one to three words, every one but the last
   * into exactly three.
   */
  lemma {:induction false} ThreeWordLinesShape(words: seq<string>)
    requires AllWords(words)
    ensures var lines := ThreeWordLines(words);
      && |words| <= 3 * |lines| < |words| + 3
      && NoEmpty(lines)
      && (forall i :: 0 <= i < |lines| ==> 1 <= |Words(lines[i])| <= 3)
      && (forall i :: 0 <= i < |lines| - 1 ==> |Words(lines[i])| == 3)
    decreases |words|
  {
    if words != [] {
      var group := if |words| <= 3 then words else words[..3];
      WordsOfJoin(group);
      if |words| > 3 {
        ThreeWordLinesShape(words[3..]);
        var lines := ThreeWordLines(words);
        assert forall i :: 1 <= i < |lines| ==> lines[i] == ThreeWordLines(words[3..])[i - 1];
      }
    }
  }

  /** Joining the fallback lines with single spaces gives the words in order. */
  lemma {:induction false} ThreeWordLinesJoin(words: seq<string>)
    requires AllWords(words)
    ensures JoinSpace(ThreeWordLines(words)) == JoinSpace(words)
    ensures Words(JoinSpace(ThreeWordLines(words))) == words
    decreases |words|
  {
    if |words| > 3 {
      var group := words[..3];
      var rest := words[3..];
      ThreeWordLinesJoin(rest);
      ThreeWordLinesShape(rest);
      JoinConcat([JoinSpace(group)], ThreeWordLines(rest));
      JoinConcat(group, rest);
      assert group + rest == words;
    }
    WordsOfJoin(words);
  }

  /** The layout create_titlecard draws for a text on a background of the given size. */
  function TitleLayout(text: string, c: Canvas, m: Metrics): (layout: Layout)
    ensures layout.fontSize >= MinFontSize && layout.lineHeight == m.lineHeight(layout.fontSize)
    ensures layout.fontSize == MinFontSize
         || OnLadder(StartSize(c), layout.fontSize)
    ensures layout.fontSize != MinFontSize ==> Accepts(text, c, m, layout.fontSize)
    ensures forall s: nat :: layout.fontSize < s && OnLadder(StartSize(c), s) ==> !Accepts(text, c, m, s)
    ensures match GreedyWrap(m, layout.fontSize, MaxTextWidth(c), text)
            case Some(lines) => layout.lines == lines
            case None => layout.fontSize == MinFontSize && layout.lines == ThreeWordLines(Words(text))
  {
    var stop := SearchStop(text, c, m, StartSize(c));
    SearchRejectsAbove(text, c, m, StartSize(c));
    if stop >= MinFontSize then
      Layout(GreedyWrap(m, stop, MaxTextWidth(c), text).value, stop, m.lineHeight(stop))
    else
      var lines := match GreedyWrap(m, MinFontSize, MaxTextWidth(c), text)
                   case Some(wrapped) => wrapped
                   case None => ThreeWordLines(Words(text));
      Layout(lines, MinFontSize, m.lineHeight(MinFontSize))
  }

  /**
   * The size search and its fallback: try sizes from a quarter of the image
   * height down in steps of 5 while at least 20, stop at the first whose
   * wrapped lines fit 80% of the height; else force size 20, wrap once more
   * and chunk by three words if that fails too.
   */
  method ChooseLayout(text: string, c: Canvas, m: Metrics) returns (layout: Layout)
    ensures layout == TitleLayout(text, c, m)
  {
    var maxTextWidth := MaxTextWidth(c);
    var fontSize: int := StartSize(c);
    var wrapped: Option<seq<string>> := None;
    var lineHeight := 0;
    while fontSize >= MinFontSize
      invariant SearchStop(text, c, m, fontSize) == SearchStop(text, c, m, StartSize(c))
      decreases fontSize
    {
      wrapped := WrapWords(m, fontSize, maxTextWidth, text);
      if wrapped.None? {
        SearchPassesRejected(text, c, m, fontSize, wrapped);
        fontSize := fontSize - SizeStep;
        continue;
      }
      lineHeight := m.lineHeight(fontSize);
      var totalHeight := lineHeight * |wrapped.value|;
      if 5 * totalHeight <= 4 * c.height {
        break;
      }
      SearchPassesRejected(text, c, m, fontSize, wrapped);
      fontSize := fontSize - SizeStep;
    }
    if fontSize < MinFontSize {
      fontSize := MinFontSize;
      wrapped := WrapWords(m, fontSize, maxTextWidth, text);
      if wrapped.None? {
        var chunks := ChunkByThree(text);
        wrapped := Some(chunks);
      }
      lineHeight := m.lineHeight(fontSize);
    }
    layout := Layout(wrapped.value, fontSize, lineHeight);
  }

  /** Whichever path produced them, the layout's lines are non-empty and join to the text's words, in order. */
  lemma LayoutKeepsWords(text: string, c: Canvas, m: Metrics)
    ensures var lines := TitleLayout(text, c, m).lines;
      && NoEmpty(lines)
      && JoinSpace(lines) == JoinSpace(Words(text))
      && Words(JoinSpace(lines)) == Words(text)
  {
    var layout := TitleLayout(text, c, m);
    WrapSound(m, layout.fontSize, MaxTextWidth(c), text);
    if GreedyWrap(m, layout.fontSize, MaxTextWidth(c), text).None? {
      ThreeWordLinesShape(Words(text));
      ThreeWordLinesJoin(Words(text));
    }
  }

  /**
   * When some size tried by the search is accepted, the layout is at the
   * largest such size: its lines fit the width and the spaced block fits in
   * 80% of the image height.
   */
  lemma LayoutUsesLargestAcceptedSize(text: string, c: Canvas, m: Metrics, s: nat)
    requires MinFontSize <= s && OnLadder(StartSize(c), s)
    requires Accepts(text, c, m, s)
    ensures var layout := TitleLayout(text, c, m);
      && s <= layout.fontSize <= StartSize(c)
      && Accepts(text, c, m, layout.fontSize)
      && LinesFit(m, layout.fontSize, MaxTextWidth(c), layout.lines)
      && FitsHeight(c, layout.lineHeight * |layout.lines|)
  {
    var layout := TitleLayout(text, c, m);
    assert s <= layout.fontSize;
    WrapSound(m, layout.fontSize, MaxTextWidth(c), text);
  }

  /**
   * When no size the search tries at or above 20 is accepted, the loop ends
   * below 20 and the size is forced to exactly 20.
   */
  lemma ExhaustedSearchForcesMinimum(text: string, c: Canvas, m: Metrics)
    requires forall s: nat :: MinFontSize <= s && OnLadder(StartSize(c), s) ==> !Accepts(text, c, m, s)
    ensures TitleLayout(text, c, m).fontSize == MinFontSize
    ensures TitleLayout(text, c, m).lineHeight == m.lineHeight(MinFontSize)
  {
  }

  /**
   * When every word fits on a line of its own at the minimum size, the
   * lines come from word wrapping at the chosen size, never from the
   * three-word chunker, and each fits the width.
   */
  lemma LayoutWrapsWhenWordsFit(text: string, c: Canvas, m: Metrics)
    requires forall k :: 0 <= k < |Words(text)| ==> m.width(Words(text)[k], MinFontSize) <= MaxTextWidth(c)
    ensures var layout := TitleLayout(text, c, m);
      && GreedyWrap(m, layout.fontSize, MaxTextWidth(c), text) == Some(layout.lines)
      && LinesFit(m, layout.fontSize, MaxTextWidth(c), layout.lines)
  {
    var layout := TitleLayout(text, c, m);
    WrapFailsIffWideWord(m, MinFontSize, MaxTextWidth(c), text);
    WrapSound(m, layout.fontSize, MaxTextWidth(c), text);
  }

  /**
   * The chunker's lines are used only at the minimum size, and only when
   * some word is too wide at that size for a line of its own.
   */
  lemma ChunkerOnlyForWideWord(text: string, c: Canvas, m: Metrics)
    requires GreedyWrap(m, TitleLayout(text, c, m).fontSize, MaxTextWidth(c), text).None?
    ensures TitleLayout(text, c, m).fontSize == MinFontSize
    ensures TitleLayout(text, c, m).lines == ThreeWordLines(Words(text))
    ensures exists k :: 0 <= k < |Words(text)| && m.width(Words(text)[k], MinFontSize) > MaxTextWidth(c)
  {
    WrapFailsIffWideWord(m, MinFontSize, MaxTextWidth(c), text);
  }
}
