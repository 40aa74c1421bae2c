/**
 * Suggestions for the activity argument of the image command: the fixed
 * activities whose text contains what the user has typed, ignoring case,
 * in list order and at most 25 of them.
 */
module Autocomplete {

  /** The activities the image command suggests. */
  const ActivityOptions: seq<string> := [
    "goes to the mall",
    "goes to cedar point",
    "helps at the animal shelter",
    "look at cool smiley",
    "go to game night"
  ]

  /** The most choices the chat platform accepts in one suggestion list. */
  const MaxChoices: nat := 25

  /** ASCII lower-casing of one character. */
  function LowerChar(ch: char): (lowered: char)
    ensures !('A' <= lowered <= 'Z')
  {
    if 'A' <= ch <= 'Z' then (ch as int - 'A' as int + 'a' as int) as char else ch
  }

  /** ASCII lower-casing of a string, character by character. */
  function Lower(s: string): (lowered: string)
    ensures |lowered| == |s|
  {
    seq(|s|, i requires 0 <= i < |s| => LowerChar(s[i]))
  }

  /** needle occurs in hay starting at index i. */
  ghost predicate OccursAt(hay: string, needle: string, i: int) {
    0 <= i && i + |needle| <= |hay| && hay[i .. i + |needle|] == needle
  }

  /** Python's `needle in hay` for strings: needle is a prefix of hay or of one of its suffixes. */
  function Contains(hay: string, needle: string): (found: bool)
    decreases |hay|
  {
    needle <= hay || (hay != [] && Contains(hay[1..], needle))
  }

  /** Contains holds exactly when needle occurs somewhere in hay. */
  lemma {:induction false} ContainsIff(hay: string, needle: string)
    ensures Contains(hay, needle) <==> exists i :: OccursAt(hay, needle, i)
    decreases |hay|
  {
    if needle <= hay {
      assert OccursAt(hay, needle, 0);
    } else if hay != [] {
      ContainsIff(hay[1..], needle);
      if Contains(hay[1..], needle) {
        var i :| OccursAt(hay[1..], needle, i);
        assert hay[i + 1 .. i + 1 + |needle|] == hay[1..][i .. i + |needle|];
        assert OccursAt(hay, needle, i + 1);
      }
      if i :| OccursAt(hay, needle, i) {
        assert i != 0;
        assert hay[1..][i - 1 .. i - 1 + |needle|] == hay[i .. i + |needle|];
        assert OccursAt(hay[1..], needle, i - 1);
      }
    }
  }

  /** A non-empty needle's first character occurs in every hay that contains it. */
  lemma {:induction false} ContainsFirstChar(hay: string, needle: string)
    requires needle != [] && Contains(hay, needle)
    ensures needle[0] in hay
    decreases |hay|
  {
    if !(needle <= hay) {
      ContainsFirstChar(hay[1..], needle);
    }
  }

  /** a is b with some elements removed: a subsequence, in b's order. */
  predicate IsSubsequence(a: seq<string>, b: seq<string>)
    decreases |b|
  {
    a == [] || (b != [] && ((a[0] == b[0] && IsSubsequence(a[1..], b[1..])) || IsSubsequence(a, b[1..])))
  }

  /** A prefix of a subsequence is a subsequence. */
  lemma {:induction false} SubsequencePrefix(a: seq<string>, b: seq<string>, n: nat)
    requires IsSubsequence(a, b) && n <= |a|
    ensures IsSubsequence(a[..n], b)
    decreases |b|
  {
    if n > 0 {
      if a[0] == b[0] && IsSubsequence(a[1..], b[1..]) {
        SubsequencePrefix(a[1..], b[1..], n - 1);
        assert a[..n][1..] == a[1..][..n - 1];
      } else {
        SubsequencePrefix(a, b[1..], n);
      }
    }
  }

  /** Option o matches query when o, lower-cased, contains the lower-cased query. */
  predicate Matches(option: string, query: string) {
    Contains(Lower(option), Lower(query))
  }

  /** The options matching the query, in their list order. */
  function Matching(options: seq<string>, query: string): (r: seq<string>)
    ensures |r| <= |options|
    ensures IsSubsequence(r, options)
    ensures forall o :: o in r <==> o in options && Matches(o, query)
    decreases |options|
  {
    if options == [] then []
    else
      var rest := Matching(options[1..], query);
      assert forall o :: o in options <==> o == options[0] || o in options[1..];
      if Matches(options[0], query) then
        assert ([options[0]] + rest)[1..] == rest;
        [options[0]] + rest
      else rest
  }

  /** The filter of a single option keeps it exactly when it matches. */
  lemma MatchingOne(option: string, query: string)
    ensures Matching([option], query) == if Matches(option, query) then [option] else []
  {
    assert [option][1..] == [];
  }

  /**
   * Filtering two lists one after the other filters their concatenation:
   * with MatchingOne, this fixes the filter on every list, repeated options
   * included.
   */
  lemma {:induction false} MatchingAppend(a: seq<string>, b: seq<string>, query: string)
    ensures Matching(a + b, query) == Matching(a, query) + Matching(b, query)
    decreases |a|
  {
    if a == [] {
      assert a + b == b;
    } else {
      assert (a + b)[0] == a[0] && (a + b)[1..] == a[1..] + b;
      MatchingAppend(a[1..], b, query);
    }
  }

  /** activity_autocomplete over a list of options: the matching ones, in order, cut to 25. */
  function Suggestions(options: seq<string>, query: string): (r: seq<string>)
    ensures |r| <= MaxChoices
    ensures IsSubsequence(r, options)
    ensures forall o :: o in r ==> o in options && Matches(o, query)
    ensures |Matching(options, query)| <= MaxChoices ==> forall o :: o in options && Matches(o, query) ==> o in r
    ensures r <= Matching(options, query)
    ensures |r| == if |Matching(options, query)| <= MaxChoices then |Matching(options, query)| else MaxChoices
  {
    var all := Matching(options, query);
    if |all| <= MaxChoices then all
    else
      SubsequencePrefix(all, options, MaxChoices);
      assert forall o :: o in all[..MaxChoices] ==> o in all;
      all[..MaxChoices]
  }

  /** The suggestions for the activity argument: exactly the matching activities, in list order. */
  function ActivityAutocomplete(current: string): (r: seq<string>)
    ensures |r| <= MaxChoices
    ensures IsSubsequence(r, ActivityOptions)
    ensures forall o :: o in r <==> o in ActivityOptions && Matches(o, current)
  {
    Suggestions(ActivityOptions, current)
  }

  /** When every option matches, the filter keeps them all. */
  lemma {:induction false} MatchingAll(options: seq<string>, query: string)
    requires forall i :: 0 <= i < |options| ==> Matches(options[i], query)
    ensures Matching(options, query) == options
    decreases |options|
  {
    if options != [] {
      MatchingAll(options[1..], query);
    }
  }

  /** Typing nothing suggests every activity. */
  lemma EmptyQuerySuggestsAll()
    ensures ActivityAutocomplete("") == ActivityOptions
  {
    forall i | 0 <= i < |ActivityOptions| ensures Matches(ActivityOptions[i], "") {
      assert Lower("") == "";
    }
    MatchingAll(ActivityOptions, "");
  }

  /** A query whose lower-cased first character never occurs in the lower-cased option does not match it. */
  lemma FirstCharMissingNoMatch(option: string, query: string)
    requires query != [] && LowerChar(query[0]) !in Lower(option)
    ensures !Matches(option, query)
  {
    if Contains(Lower(option), Lower(query)) {
      ContainsFirstChar(Lower(option), Lower(query));
    }
  }

  /** A lower-case letter absent from s in both cases is absent from its lower-cased form. */
  lemma LowerKeepsAbsentLetter(s: string, ch: char)
    requires 'a' <= ch <= 'z' && ch !in s && (ch as int - 32) as char !in s
    ensures ch !in Lower(s)
  {
  }

  /** "go" is not in the animal-shelter activity: it has no g at all. */
  lemma GoNotInShelter()
    ensures !Matches(ActivityOptions[2], "go")
  {
    LowerKeepsAbsentLetter("helps at the animal shelter", 'g');
    FirstCharMissingNoMatch(ActivityOptions[2], "go");
  }

  /** "go" is not in the smiley activity: it has no g at all. */
  lemma GoNotInSmiley()
    ensures !Matches(ActivityOptions[3], "go")
  {
    LowerKeepsAbsentLetter("look at cool smiley", 'g');
    FirstCharMissingNoMatch(ActivityOptions[3], "go");
  }

  /** Which activities contain "go". */
  lemma GoMatches()
    ensures Matches(ActivityOptions[0], "go") && Matches(ActivityOptions[1], "go") && Matches(ActivityOptions[4], "go")
    ensures !Matches(ActivityOptions[2], "go") && !Matches(ActivityOptions[3], "go")
  {
    var o := ActivityOptions;
    assert "go" <= Lower(o[0]) && "go" <= Lower(o[1]) && "go" <= Lower(o[4]);
    GoNotInShelter();
    GoNotInSmiley();
  }

  /** Matching looks at the first option, then at the rest. */
  lemma MatchingFront(options: seq<string>, query: string)
    requires options != []
    ensures Matching(options, query) == (if Matches(options[0], query) then [options[0]] else []) + Matching(options[1..], query)
  {
  }

  /** The suggestions for a five-option list of which the first, second and fifth match. */
  lemma SuggestionsOfFive(o: seq<string>, q: string)
    requires |o| == 5
    requires Matches(o[0], q) && Matches(o[1], q) && !Matches(o[2], q) && !Matches(o[3], q) && Matches(o[4], q)
    ensures Suggestions(o, q) == [o[0], o[1], o[4]]
  {
    var o1, o2, o3, o4 := o[1..], o[2..], o[3..], o[4..];
    assert Matching(o4, q) == [o[4]] by {
      MatchingFront(o4, q);
      assert o4[0] == o[4] && o4[1..] == [];
    }
    assert Matching(o3, q) == [o[4]] by {
      MatchingFront(o3, q);
      assert o3[0] == o[3] && o3[1..] == o4;
    }
    assert Matching(o2, q) == [o[4]] by {
      MatchingFront(o2, q);
      assert o2[0] == o[2] && o2[1..] == o3;
    }
    assert Matching(o1, q) == [o[1], o[4]] by {
      MatchingFront(o1, q);
      assert o1[0] == o[1] && o1[1..] == o2;
    }
    assert Matching(o, q) == [o[0], o[1], o[4]] by {
      MatchingFront(o, q);
    }
  }

  /** Typing "go" suggests the three activities that contain it, in list order. */
  lemma GoQuerySuggestions()
    ensures ActivityAutocomplete("go") == ["goes to the mall", "goes to cedar point", "go to game night"]
  {
    GoMatches();
    SuggestionsOfFive(ActivityOptions, "go");
  }
}
