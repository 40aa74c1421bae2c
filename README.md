# House-Bot titlecard layout, modelled in Dafny

House-Bot is a chat bot whose image command draws a line of text on a fixed
background (a "titlecard") and whose argument autocomplete suggests activities
from a fixed list. This project models the logic in `main.py`:

- `create_titlecard`'s greedy word wrap (`word_wrap`);
- the font-size search, which starts at a quarter of the image height and
  steps down by 5 while the size is at least 20;
- the fallback that forces size 20, wraps once more and, if that fails, cuts
  the text into lines of three words;
- the placement arithmetic that centres the block vertically and each line
  horizontally;
- `activity_autocomplete` over `ACTIVITY_OPTIONS`.

Text measurement belongs to the imaging library, so it is a parameter:
`WordWrap.Metrics` holds `width(s, size)`, the width of the bounding box of
`s` at a font size, and `lineHeight(size)`, the spaced line height at that
size. Every result below holds for every such measure. Where a result needs
more, the lemma says so: `WordWrap.NeverShrinks` is a measure that never gets
smaller when a string is extended.

Modules, one per concern, all in `main.py`'s terms:

- `TextWords` (text_words.dfy): `text.split()` (`Words`), `" ".join`
  (`JoinSpace`) and the line extension `line + " " + word if line else word`
  (`AppendWord`).
- `WordWrap` (word_wrap.dfy): `word_wrap` as a loop (`WrapWords`) proved equal
  to a step-by-step function (`GreedyWrap`), and the properties of that function.
- `FontFit` (font_fit.dfy): the size search, the size-20 fallback and the
  three-word chunker. `ChooseLayout` and `ChunkByThree` are proved equal to
  `TitleLayout` and `ThreeWordLines`.
- `Placement` (placement.dfy): the drawing loop (`PlaceLines`) and
  `create_titlecard` as a whole (`CreateTitlecard`).
- `Autocomplete` (autocomplete.dfy): the case-insensitive substring filter,
  capped at 25.
- `Optional` (optional.dfy): the `None`-or-value result.

Three behaviours of the code are worth stating on their own:
- `word_wrap` measures a word alone only after the word failed to fit on the
  end of the current line (main.py:94-108). For an arbitrary measure, a word
  that is too wide alone can still be accepted on the end of a line.
  `WordWrap.WrapFailsIffWideWord` states the exact relation, and gives the
  "iff" only for a measure that never shrinks.
- When the start size `int(img_height / 4)` (main.py:75) is below 20, the
  search loop does not run and the code forces size 20 (main.py:153-155), above the start size.
  `FontFit.TitleLayout` states this case.
- Text without words gives an empty list of lines; nothing is drawn.

## Model

| member | source | states |
|---|---|---|
| `TextWords.Words` | main.py:80 | every element of `text.split()` is a non-empty run of non-whitespace characters |
| `TextWords.WordsKeepCharacters` | main.py:80 | the words of `text.split()`, run together, are exactly the text's non-whitespace characters in order; there are no words exactly when the text is all whitespace |
| `TextWords.WordsAroundSpace` | main.py:80 | splitting a text at any whitespace character gives the words before it followed by the words after it; with `WordsOfWord` and the empty text this fixes `split()` on every text |
| `TextWords.JoinSnoc` | main.py:86 | extending a joined line by a word (`line + " " + word`, or the word alone when the line is empty) is the single-space join of one more word |
| `TextWords.WordsOfJoin` | main.py:175 | splitting a single-space join of words gives back exactly those words; so `len(current_line.split())` counts the words appended to the line |
| `WordWrap.WrapWords` | main.py:79-114 | the `word_wrap` loop returns exactly the greedy step-by-step wrap of `text.split()` (`GreedyWrap`), including the early `None` |
| `WordWrap.WrapStepKeeps` | main.py:84-108 | one step of the wrap (one word handled) keeps the invariant `WrapInv` that `WrapFromKeeps` carries through the recursive wrap: every closed or current line is non-empty and within `max_width`, and their join is the words consumed so far |
| `WordWrap.WrapSound` | main.py:86-114 | on success every line is non-empty and measures at most `max_width`; joining the lines with single spaces gives the words of `text.split()` in order, none dropped or duplicated; text with no words gives `[]` |
| `WordWrap.WrapFailsIffWideWord` | main.py:94-108 | `None` is returned only if some word alone is wider than `max_width`; for a measure that never shrinks when a string is extended, exactly then |
| `FontFit.MaxTextWidth` | main.py:72 | the maximum text width is 80% of the image width, truncated |
| `FontFit.SearchStop` | main.py:75-151 | the loop stops at a size that is the start minus a multiple of 5; a stop at 20 or above is accepted (wrap succeeded, spaced block ≤ 80% of height); a stop below 20 is 15-19 or the start itself |
| `FontFit.SearchRejectsAbove` | main.py:120-151 | every size the loop visits above the one it stops at was rejected: the wrap returned `None` or the spaced block was taller than 80% of the height |
| `FontFit.ChunkByThree` | main.py:164-181 | the chunker loop returns exactly `ThreeWordLines` of the words: consecutive groups of three words, then the one or two left over |
| `FontFit.ChunkStep` | main.py:168-177 | appending a word to the pending line gives the single-space join of the words since the last closed line; `len(current_line.split()) >= 3` holds exactly when that line has reached its third word, and closing it then extends the lines by the next group of `ThreeWordLines` |
| `FontFit.ThreeWordLinesShape` | main.py:164-181 | there are ⌈n/3⌉ fallback lines for n words; each line is non-empty and splits into 1 to 3 words; every line but the last splits into exactly 3 |
| `FontFit.ThreeWordLinesJoin` | main.py:164-181 | joining the fallback lines with single spaces reproduces the words in order |
| `FontFit.TitleLayout` | main.py:116-187 | the chosen size is at least 20, and it is either 20 or a candidate size at most the start size; no larger candidate size is accepted; a chosen size other than 20 was accepted (wrap succeeded, spaced block within 80% of the height); the line height is the spaced height at the chosen size; the lines are the wrap at that size, and the three-word fallback is used only at size 20 when that wrap returns `None` |
| `FontFit.ExhaustedSearchForcesMinimum` | main.py:153-155 | when no size the loop tries at or above 20 is accepted, the size is forced to exactly 20, with the line height at 20 |
| `FontFit.ChooseLayout` | main.py:116-187 | the search loop with its `continue` and `break` exits, followed by the minimum-size fallback, computes `TitleLayout`; the loop terminates because each rejected size is lowered by 5 |
| `FontFit.LayoutKeepsWords` | main.py:153-187 | whichever path produced the lines, they are non-empty and join to the words of the text in order |
| `FontFit.LayoutUsesLargestAcceptedSize` | main.py:120-151 | if any size tried is accepted, the layout uses the largest such size: every line fits the width and the spaced block fits in 80% of the image height |
| `FontFit.LayoutWrapsWhenWordsFit` | main.py:153-162 | if every word fits on a line of its own at size 20, the lines come from word wrap at the chosen size, never from the chunker, and each fits the width |
| `FontFit.ChunkerOnlyForWideWord` | main.py:153-162 | the chunker's lines are used only at size 20, and only when some word is wider than the maximum at that size |
| `Placement.PlaceLines` | main.py:189-206 | line i is drawn at x = (width − line width) // 2 and y = (height − line height × line count) // 2 + i × line height, in the fixed colour; the left and right margins, and the top and bottom margins of the block, differ by 0 or 1 pixel; consecutive lines are one line height apart |
| `Placement.CreateTitlecard` | main.py:58-206 | no card exactly when the background file cannot be found; otherwise one draw call per layout line, carrying that line, at x = (width − line width) // 2 and y = (height − line height × line count) // 2 + i × line height, in the fixed colour; the lines hold the text's words in order |
| `Autocomplete.ContainsIff` | main.py:238 | the substring test holds exactly when the query occurs at some position of the option |
| `Autocomplete.Matching` | main.py:235-238 | the filtered list is an in-order subsequence of the options; an option is in it exactly when its lower-cased text contains the lower-cased query |
| `Autocomplete.MatchingOne` | main.py:235-238 | a single option is kept exactly when it matches |
| `Autocomplete.MatchingAppend` | main.py:235-238 | filtering a concatenation is filtering each part and concatenating; with `MatchingOne` this fixes the filter on every list, repeated options included |
| `Autocomplete.Suggestions` | main.py:235-239 | the result is the first 25 matching options (`[:25]`): a prefix of the filtered list, of length min(matches, 25); in option order, each a matching option; when at most 25 options match, all of them are included |
| `Autocomplete.ActivityAutocomplete` | main.py:221-239 | for the five activities, the suggestions are exactly the matching activities, in list order |
| `Autocomplete.EmptyQuerySuggestsAll` | main.py:221-239 | an empty query suggests all five activities |
| `Autocomplete.GoQuerySuggestions` | main.py:221-239 | the query "go" suggests "goes to the mall", "goes to cedar point" and "go to game night", in that order |

## Left out

- Bot set-up is not modelled: intents, the command prefix, loading the token
  from the environment and the fatal error when it is missing
  (main.py:10-24, 256). It is platform and environment plumbing.
- The `on_ready`, `hello` and `send_image` handlers are not modelled
  (main.py:27-36, 242-253). They are network I/O and command dispatch.
  `CreateTitlecard`'s `None` is the result that `send_image` turns into a
  failure message.
- Opening and decoding the background image is a parameter. `CreateTitlecard`
  receives the image size, or `None` for a file that cannot be found
  (main.py:59-63).
  A file that exists but cannot be decoded raises an exception in the code;
  that path is not modelled.
- Font loading (`ImageFont.truetype`) and text measurement (`draw.textbbox`)
  are the `Metrics` parameter. The reference string `"TygpqjÁÇÊ"` only
  matters through `lineHeight`.
- Rendering is not modelled. `draw.text` becomes the `DrawCall` records that
  `PlaceLines` returns. PNG encoding into an in-memory buffer is left out
  (main.py:208-218), so the output image's size equal to the background's is
  not stated.
- The `except Exception` branch of the search loop is left out
  (main.py:147-148). It only catches font-library failures, and font loading
  is assumed to succeed.
- The warning messages printed on the way are left out.
- Floating point is not modelled:
  - `int(img_width * 0.8)` is `4 * width / 5`.
  - `total_height <= img_height * 0.8` is `5 * total <= 4 * height`.
  - `int(line_height * line_spacing_factor)` is taken as given, as `lineHeight(size)`.
  - Where rounding of the binary float products would change a result, the
    model may differ from the code.
- `FontFit.ChooseLayout`: `int(img_height / 4)` is modelled as `height / 4`.
  These are equal for every height below 2^53.
- `str.split()` is modelled with the ASCII whitespace characters only (space,
  tab to carriage return, and 0x1C-0x1F). Non-ASCII whitespace such as
  U+00A0 is treated as part of a word.
- `Autocomplete.ActivityAutocomplete`: `str.lower()` is modelled as ASCII
  lower-casing. Queries containing non-ASCII upper-case letters may match
  differently. The five activities are all ASCII.
- The suggestions are modelled as the option strings. The code wraps each one
  in a `Choice` whose name and value are both that string.
