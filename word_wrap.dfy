/**
 * The greedy word wrap nested in create_titlecard: words are packed onto a
 * line while the measured width of the line stays within the maximum.
 */
module WordWrap {
  import opened Optional
  import opened TextWords

  /**
   * Text measurement, which the drawing library performs: width(s, size) is
   * the horizontal extent of the bounding box of s drawn at font size `size`;
   * lineHeight(size) is the spaced line height at that size (the height of
   * the reference string's box scaled by the line spacing factor).
   */
  datatype Metrics = Metrics(width: (string, nat) -> nat, lineHeight: nat -> nat)

  /** A measure that never shrinks when a string is extended on either side. */
  ghost predicate NeverShrinks(m: Metrics, size: nat) {
    forall s: string, t: string :: m.width(s, size) <= m.width(s + t, size) && m.width(t, size) <= m.width(s + t, size)
  }

  /** The state of word_wrap's loop: the closed lines and the line being filled. */
  datatype WrapState = WrapState(lines: seq<string>, current: string)

  /** The closed lines followed by the current line when it is not empty. */
  function Flush(st: WrapState): (lines: seq<string>) {
    if st.current != "" then st.lines + [st.current] else st.lines
  }

  /**
   * One iteration of word_wrap's loop: keep the word on the current line if
   * the extended line fits, otherwise close the line and start a new one with
   * the word, or fail when the word alone is too wide.
   */
  function WrapStep(m: Metrics, size: nat, maxWidth: nat, st: WrapState, word: string): (next: Option<WrapState>) {
    var candidate := AppendWord(st.current, word);
    if m.width(candidate, size) <= maxWidth then Some(WrapState(st.lines, candidate))
    else if m.width(word, size) <= maxWidth then Some(WrapState(Flush(st), word))
    else None
  }

  /** The loop run over the remaining words from a given state. */
  function WrapFrom(m: Metrics, size: nat, maxWidth: nat, st: WrapState, words: seq<string>): (final: Option<WrapState>)
    decreases |words|
  {
    if words == [] then Some(st)
    else
      match WrapStep(m, size, maxWidth, st, words[0])
      case None => None
      case Some(next) => WrapFrom(m, size, maxWidth, next, words[1..])
  }

  /** word_wrap(text, font, max_width), the font being given by its size. */
  function GreedyWrap(m: Metrics, size: nat, maxWidth: nat, text: string): (wrapped: Option<seq<string>>) {
    match WrapFrom(m, size, maxWidth, WrapState([], ""), Words(text))
    case None => None
    case Some(st) => Some(Flush(st))
  }

  /** word_wrap itself: one pass over the words, returning None as soon as a word is too wide alone. */
  method WrapWords(m: Metrics, size: nat, maxWidth: nat, text: string) returns (r: Option<seq<string>>)
    ensures r == GreedyWrap(m, size, maxWidth, text)
  {
    var words := Words(text);
    var lines: seq<string> := [];
    var current := "";
    for i := 0 to |words|
      invariant WrapFrom(m, size, maxWidth, WrapState([], ""), words)
             == WrapFrom(m, size, maxWidth, WrapState(lines, current), words[i..])
    {
      var word := words[i];
      assert words[i..][0] == word && words[i..][1..] == words[i + 1..];
      var testLine := if current != "" then current + " " + word else word;
      if m.width(testLine, size) <= maxWidth {
        current := testLine;
      } else {
        if current != "" {
          lines := lines + [current];
        }
        if m.width(word, size) <= maxWidth {
          current := word;
        } else {
          return None;
        }
      }
    }
    if current != "" {
      lines := lines + [current];
    }
    return Some(lines);
  }

  /** Every line is non-empty and measures at most the maximum width. */
  predicate LinesFit(m: Metrics, size: nat, maxWidth: nat, lines: seq<string>) {
    forall i :: 0 <= i < |lines| ==> lines[i] != "" && m.width(lines[i], size) <= maxWidth
  }

  /**
   * What the loop keeps: every line so far is non-empty and fits, and
   * joining them with single spaces gives the words consumed so far.
   */
  ghost predicate WrapInv(m: Metrics, size: nat, maxWidth: nat, st: WrapState, done: seq<string>) {
    && LinesFit(m, size, maxWidth, Flush(st))
    && JoinSpace(Flush(st)) == JoinSpace(done)
  }

  lemma WrapStepFits(m: Metrics, size: nat, maxWidth: nat, st: WrapState, word: string, next: WrapState)
    requires LinesFit(m, size, maxWidth, Flush(st)) && word != ""
    requires WrapStep(m, size, maxWidth, st, word) == Some(next)
    ensures LinesFit(m, size, maxWidth, Flush(next))
  {
    if m.width(AppendWord(st.current, word), size) > maxWidth {
      assert Flush(next) == Flush(st) + [word];
    } else if st.current != "" {
      assert Flush(next) == st.lines + [next.current];
      assert Flush(st) == st.lines + [st.current];
      assert forall i :: 0 <= i < |st.lines| ==> st.lines[i] == Flush(st)[i];
    }
  }

  lemma WrapStepJoins(m: Metrics, size: nat, maxWidth: nat, st: WrapState, done: seq<string>, word: string, next: WrapState)
    requires NoEmpty(Flush(st)) && NoEmpty(done) && JoinSpace(Flush(st)) == JoinSpace(done) && word != ""
    requires WrapStep(m, size, maxWidth, st, word) == Some(next)
    ensures JoinSpace(Flush(next)) == JoinSpace(done + [word])
  {
    JoinSnoc(done, word);
    if st.current != "" && next.current != word {
      JoinExtendLast(st.lines, st.current, word);
    } else {
      JoinSnoc(Flush(st), word);
    }
  }

  /** Extending the last of the joined strings by a word extends the join by that word. */
  lemma JoinExtendLast(lines: seq<string>, current: string, word: string)
    requires NoEmpty(lines) && current != ""
    ensures JoinSpace(lines + [current + " " + word]) == JoinSpace(lines + [current]) + " " + word
  {
    JoinSnoc(lines, current);
    JoinSnoc(lines, current + " " + word);
  }

  /** One step of the loop preserves WrapInv. */
  lemma WrapStepKeeps(m: Metrics, size: nat, maxWidth: nat, st: WrapState, done: seq<string>, word: string, next: WrapState)
    requires WrapInv(m, size, maxWidth, st, done) && AllWords(done) && IsWord(word)
    requires WrapStep(m, size, maxWidth, st, word) == Some(next)
    ensures WrapInv(m, size, maxWidth, next, done + [word])
  {
    WrapStepFits(m, size, maxWidth, st, word, next);
    WrapStepJoins(m, size, maxWidth, st, done, word, next);
  }

  /** A run over at least one word that succeeds takes a first step that succeeds. */
  lemma WrapFromFirst(m: Metrics, size: nat, maxWidth: nat, st: WrapState, rest: seq<string>, final: WrapState) returns (next: WrapState)
    requires rest != [] && WrapFrom(m, size, maxWidth, st, rest) == Some(final)
    ensures WrapStep(m, size, maxWidth, st, rest[0]) == Some(next)
    ensures WrapFrom(m, size, maxWidth, next, rest[1..]) == Some(final)
  {
    next := WrapStep(m, size, maxWidth, st, rest[0]).value;
  }

  /** Moving the first remaining word to the consumed ones keeps both lists made of words. */
  lemma MoveWord(done: seq<string>, rest: seq<string>)
    requires AllWords(done) && AllWords(rest) && rest != []
    ensures AllWords(done + [rest[0]]) && AllWords(rest[1..]) && IsWord(rest[0])
    ensures (done + [rest[0]]) + rest[1..] == done + rest
  {
  }

  lemma {:induction false} WrapFromKeeps(m: Metrics, size: nat, maxWidth: nat, st: WrapState, done: seq<string>, rest: seq<string>, final: WrapState)
    requires AllWords(done) && AllWords(rest) && WrapInv(m, size, maxWidth, st, done)
    requires WrapFrom(m, size, maxWidth, st, rest) == Some(final)
    ensures WrapInv(m, size, maxWidth, final, done + rest)
    decreases |rest|
  {
    if rest == [] {
      assert final == st && done + rest == done;
    } else {
      var next := WrapFromFirst(m, size, maxWidth, st, rest, final);
      MoveWord(done, rest);
      WrapStepKeeps(m, size, maxWidth, st, done, rest[0], next);
      WrapFromKeeps(m, size, maxWidth, next, done + [rest[0]], rest[1..], final);
    }
  }

  /**
   * A successful wrap gives non-empty lines, each measuring at most the
   * maximum width, whose single-space join is the text's words in order;
   * text without words gives no lines.
   */
  lemma WrapSound(m: Metrics, size: nat, maxWidth: nat, text: string)
    ensures Words(text) == [] ==> GreedyWrap(m, size, maxWidth, text) == Some([])
    ensures GreedyWrap(m, size, maxWidth, text).Some? ==>
      var lines := GreedyWrap(m, size, maxWidth, text).value;
      && LinesFit(m, size, maxWidth, lines)
      && JoinSpace(lines) == JoinSpace(Words(text))
      && Words(JoinSpace(lines)) == Words(text)
  {
    var words := Words(text);
    var init := WrapState([], "");
    match WrapFrom(m, size, maxWidth, init, words)
    case None =>
    case Some(final) =>
      assert AllWords([]);
      WrapFromKeeps(m, size, maxWidth, init, [], words, final);
      assert [] + words == words;
      WordsOfJoin(words);
  }

  /** The loop fails only at a word that does not fit on a line of its own. */
  lemma {:induction false} WrapFromFailsAtWideWord(m: Metrics, size: nat, maxWidth: nat, st: WrapState, words: seq<string>)
    requires WrapFrom(m, size, maxWidth, st, words).None?
    ensures exists k :: 0 <= k < |words| && m.width(words[k], size) > maxWidth
    decreases |words|
  {
    if WrapStep(m, size, maxWidth, st, words[0]).Some? {
      var next := WrapStep(m, size, maxWidth, st, words[0]).value;
      WrapFromFailsAtWideWord(m, size, maxWidth, next, words[1..]);
      var k :| 0 <= k < |words[1..]| && m.width(words[1..][k], size) > maxWidth;
      assert words[k + 1] == words[1..][k];
    }
  }

  /** Under a measure that never shrinks, a word too wide alone makes the loop fail. */
  lemma {:induction false} WideWordFailsWrapFrom(m: Metrics, size: nat, maxWidth: nat, st: WrapState, words: seq<string>, k: nat)
    requires NeverShrinks(m, size)
    requires k < |words| && m.width(words[k], size) > maxWidth
    ensures WrapFrom(m, size, maxWidth, st, words).None?
    decreases k
  {
    var word := words[0];
    if k == 0 {
      if st.current != "" {
        assert m.width(word, size) <= m.width(st.current + " " + word, size);
      }
    } else if WrapStep(m, size, maxWidth, st, word).Some? {
      var next := WrapStep(m, size, maxWidth, st, word).value;
      assert words[1..][k - 1] == words[k];
      WideWordFailsWrapFrom(m, size, maxWidth, next, words[1..], k - 1);
    }
  }

  /**
   * word_wrap returns None only when some word alone is wider than the
   * maximum; under a measure that never shrinks, exactly then.
   */
  lemma WrapFailsIffWideWord(m: Metrics, size: nat, maxWidth: nat, text: string)
    ensures GreedyWrap(m, size, maxWidth, text).None? ==>
      exists k :: 0 <= k < |Words(text)| && m.width(Words(text)[k], size) > maxWidth
    ensures NeverShrinks(m, size) ==>
      (GreedyWrap(m, size, maxWidth, text).None? <==>
       exists k :: 0 <= k < |Words(text)| && m.width(Words(text)[k], size) > maxWidth)
  {
    var words := Words(text);
    var init := WrapState([], "");
    if GreedyWrap(m, size, maxWidth, text).None? {
      WrapFromFailsAtWideWord(m, size, maxWidth, init, words);
    }
    if NeverShrinks(m, size) && exists k :: 0 <= k < |words| && m.width(words[k], size) > maxWidth {
      var k :| 0 <= k < |words| && m.width(words[k], size) > maxWidth;
      WideWordFailsWrapFrom(m, size, maxWidth, init, words, k);
    }
  }
}
