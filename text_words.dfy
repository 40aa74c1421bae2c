/**
 * Splitting text into words and joining words with single spaces: the
 * `text.split()` and `a + " " + b` operations the titlecard layout is built on.
 */
module TextWords {

  /** The ASCII characters that Python's `str.split()` treats as whitespace. */
  predicate IsSpace(c: char) {
    c == ' ' || ('\t' <= c <= '\r') || ('\U{1C}' <= c <= '\U{1F}')
  }

  /** A word: a non-empty run of non-whitespace characters. */
  predicate IsWord(w: string) {
    w != [] && forall k :: 0 <= k < |w| ==> !IsSpace(w[k])
  }

  predicate AllWords(ws: seq<string>) {
    forall i :: 0 <= i < |ws| ==> IsWord(ws[i])
  }

  /** No element of ws is the empty string. */
  predicate NoEmpty(ws: seq<string>) {
    forall i :: 0 <= i < |ws| ==> ws[i] != ""
  }

  /** The length of the word at the front of s: the index of s's first whitespace character. */
  function WordLength(s: string): (n: nat)
    ensures n <= |s|
    ensures forall k :: 0 <= k < n ==> !IsSpace(s[k])
    ensures n < |s| ==> IsSpace(s[n])
  {
    if s == [] || IsSpace(s[0]) then 0 else 1 + WordLength(s[1..])
  }

  /** The words of s, in order, as `s.split()` with no argument returns them. */
  function Words(s: string): (ws: seq<string>)
    ensures AllWords(ws)
    decreases |s|
  {
    if s == [] then []
    else if IsSpace(s[0]) then Words(s[1..])
    else
      var n := WordLength(s);
      [s[..n]] + Words(s[n..])
  }

  /** The strings of ws joined with single spaces, as `" ".join(ws)`. */
  function JoinSpace(ws: seq<string>): (s: string)
    ensures NoEmpty(ws) ==> (s == "" <==> ws == [])
  {
    if ws == [] then ""
    else if |ws| == 1 then ws[0]
    else JoinSpace(ws[..|ws| - 1]) + " " + ws[|ws| - 1]
  }

  /** A line extended by one word: the word alone when the line is empty, else separated by one space. */
  function AppendWord(line: string, word: string): (extended: string) {
    if line != "" then line + " " + word else word
  }

  /** Joining one more string extends the joined line by that string. */
  lemma JoinSnoc(ws: seq<string>, w: string)
    requires NoEmpty(ws)
    ensures JoinSpace(ws + [w]) == AppendWord(JoinSpace(ws), w)
  {
  }

  /** Joining a concatenation puts one space between the two joined halves. */
  lemma {:induction false} JoinConcat(a: seq<string>, b: seq<string>)
    requires a != [] && b != []
    ensures JoinSpace(a + b) == JoinSpace(a) + " " + JoinSpace(b)
    decreases |b|
  {
    var last := b[|b| - 1];
    if |b| == 1 {
      assert (a + b)[..|a|] == a;
    } else {
      var init := b[..|b| - 1];
      JoinConcat(a, init);
      assert (a + b)[..|a + b| - 1] == a + init;
      var left, middle := JoinSpace(a), JoinSpace(init);
      calc {
        JoinSpace(a + b);
        JoinSpace(a + init) + " " + last;
        (left + " " + middle) + " " + last;
        left + " " + (middle + " " + last);
        left + " " + JoinSpace(b);
      }
    }
  }

  /** A single word splits into itself. */
  lemma WordsOfWord(w: string)
    requires IsWord(w)
    ensures Words(w) == [w]
  {
    var n := WordLength(w);
    assert n == |w|;
    assert w[..n] == w;
    assert w[n..] == [];
  }

  /** The front word ends no later than a following whitespace character. */
  lemma {:induction false} WordLengthBeforeSpace(a: string, c: string)
    requires c != [] && IsSpace(c[0])
    ensures WordLength(a + c) == WordLength(a)
    decreases |a|
  {
    if a != [] && !IsSpace(a[0]) {
      assert (a + c)[1..] == a[1..] + c;
      WordLengthBeforeSpace(a[1..], c);
    }
  }

  /** Splitting at any whitespace character splits each side on its own. */
  lemma {:induction false} WordsAroundSpace(a: string, c: char, b: string)
    requires IsSpace(c)
    ensures Words(a + [c] + b) == Words(a) + Words(b)
    decreases |a|
  {
    var s := a + [c] + b;
    if a == [] {
      assert s[1..] == b;
    } else if IsSpace(a[0]) {
      assert s[1..] == a[1..] + [c] + b;
      WordsAroundSpace(a[1..], c, b);
    } else {
      var m := WordLength(a);
      var n := WordLength(s);
      WordLengthBeforeSpace(a, [c] + b);
      assert a + ([c] + b) == s;
      assert s[..n] == a[..m];
      assert s[n..] == a[m..] + [c] + b;
      WordsAroundSpace(a[m..], c, b);
    }
  }

  /** The strings of ws run together with nothing between them, as `"".join(ws)`. */
  function Concat(ws: seq<string>): (s: string)
    ensures |s| >= |ws| || !NoEmpty(ws)
  {
    if ws == [] then "" else ws[0] + Concat(ws[1..])
  }

  /** s with every whitespace character removed. */
  function Squeeze(s: string): (r: string)
    ensures |r| <= |s|
    ensures forall k :: 0 <= k < |r| ==> !IsSpace(r[k])
  {
    if s == [] then ""
    else if IsSpace(s[0]) then Squeeze(s[1..])
    else [s[0]] + Squeeze(s[1..])
  }

  /** Removing whitespace from a word leaves the word. */
  lemma {:induction false} SqueezeWord(w: string)
    requires forall k :: 0 <= k < |w| ==> !IsSpace(w[k])
    ensures Squeeze(w) == w
    decreases |w|
  {
    if w != [] {
      SqueezeWord(w[1..]);
      assert w == [w[0]] + w[1..];
    }
  }

  /** Removing whitespace from a concatenation removes it from each part. */
  lemma {:induction false} SqueezeAppend(a: string, b: string)
    ensures Squeeze(a + b) == Squeeze(a) + Squeeze(b)
    decreases |a|
  {
    if a == [] {
      assert a + b == b;
    } else {
      assert (a + b)[1..] == a[1..] + b;
      SqueezeAppend(a[1..], b);
    }
  }

  /**
   * `s.split()` keeps every non-whitespace character of s, in order and
   * nothing else, and gives no words exactly when s is all whitespace.
   */
  lemma {:induction false} WordsKeepCharacters(s: string)
    ensures Concat(Words(s)) == Squeeze(s)
    ensures Words(s) == [] <==> forall k :: 0 <= k < |s| ==> IsSpace(s[k])
    decreases |s|
  {
    if s != [] {
      if IsSpace(s[0]) {
        WordsKeepCharacters(s[1..]);
        assert forall k :: 1 <= k < |s| ==> s[k] == s[1..][k - 1];
      } else {
        var n := WordLength(s);
        WordsKeepCharacters(s[n..]);
        SqueezeWord(s[..n]);
        SqueezeAppend(s[..n], s[n..]);
        assert s[..n] + s[n..] == s;
      }
    }
  }

  /** Splitting a single-space join of words gives back exactly those words. */
  lemma {:induction false} WordsOfJoin(ws: seq<string>)
    requires AllWords(ws)
    ensures Words(JoinSpace(ws)) == ws
    decreases |ws|
  {
    if |ws| == 1 {
      WordsOfWord(ws[0]);
    } else if |ws| > 1 {
      var init := ws[..|ws| - 1];
      WordsOfJoin(init);
      WordsAroundSpace(JoinSpace(init), ' ', ws[|ws| - 1]);
      WordsOfWord(ws[|ws| - 1]);
      assert init + [ws[|ws| - 1]] == ws;
    }
  }
}
