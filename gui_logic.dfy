/**
 * The logic of the application window, apart from its widgets and its
 * state: the character-count bands, the language search, the progress
 * messages, and the layout of a saved translation.
 */
module GuiLogic {
  import opened Options
  import opened Text
  import opened Sorting
  import opened LanguageCodes
  import Translator

  // The character-count label.

  /** What the character-count label shows. */
  datatype CountLabel =
    | Initial                           // "0/5000 characters", until the first text change
    | Ready                             // "Ready to translate..."
    | Warning(chars: nat, words: nat)   // more than 4500 characters
    | Caution(chars: nat, words: nat)   // more than 4000 characters
    | Normal(chars: nat, words: nat)    // at least one character

  /** The label `on_text_change` shows for the text in the input box. */
  function CountLabelFor(input: string): (l: CountLabel)
    ensures l.Ready? <==> IsBlank(input)
    ensures !l.Initial?
    ensures !l.Ready? ==> l.chars == |Strip(input)| && l.words > 0
    ensures l.Warning? <==> |Strip(input)| > 4500
    ensures l.Caution? <==> 4000 < |Strip(input)| <= 4500
    ensures l.Normal? <==> 0 < |Strip(input)| <= 4000
  {
    var text := Strip(input);
    var chars := |text|;
    var words := if text != [] then WordCount(text) else 0;
    StripEmptyIffBlank(input);
    assert text != [] ==> words > 0 by {
      if text != [] {
        assert !IsBlank(text) by { assert !IsSpace(text[0]); }
        WordCountZeroIffBlank(text);
      }
    }
    if chars > 4500 then Warning(chars, words)
    else if chars > 4000 then Caution(chars, words)
    else if chars > 0 then Normal(chars, words)
    else Ready
  }

  /** More text never moves the label to a lower band. */
  lemma CountBandsMonotone(a: string, b: string)
    requires |Strip(a)| <= |Strip(b)|
    ensures CountLabelFor(a).Warning? ==> CountLabelFor(b).Warning?
    ensures CountLabelFor(a).Caution? ==> CountLabelFor(b).Caution? || CountLabelFor(b).Warning?
    ensures !CountLabelFor(a).Ready? ==> !CountLabelFor(b).Ready?
  {
  }

  // The language lists.

  /**
   * The elements of `s` that satisfy `keep`, in their order in `s`; a list
   * without repetitions gives one, and `KeepCounts` states that each kept
   * element occurs as often as in `s`.
   */
  function Keep(s: seq<string>, keep: string -> bool): (r: seq<string>)
    ensures |r| <= |s|
    ensures forall x :: x in r <==> x in s && keep(x)
    ensures Sorted(s) ==> Sorted(r)
    ensures Distinct(s) ==> Distinct(r)
  {
    if s == [] then []
    else
      var rest := Keep(s[1..], keep);
      KeptSorted(s, keep, rest);
      KeptDistinct(s, keep, rest);
      if keep(s[0]) then [s[0]] + rest else rest
  }

  /** `Keep` keeps every occurrence of a kept element and none of the others. */
  lemma {:induction false} KeepCounts(s: seq<string>, keep: string -> bool)
    ensures forall x :: multiset(Keep(s, keep))[x] == if keep(x) then multiset(s)[x] else 0
  {
    if s != [] {
      KeepCounts(s[1..], keep);
      KeptCounts(s, keep, Keep(s[1..], keep));
    }
  }

  /** One step of `Keep`: the counts of the kept tail extend to `s`. */
  lemma KeptCounts(s: seq<string>, keep: string -> bool, rest: seq<string>)
    requires s != []
    requires forall x :: multiset(rest)[x] == if keep(x) then multiset(s[1..])[x] else 0
    ensures var r := if keep(s[0]) then [s[0]] + rest else rest;
      forall x :: multiset(r)[x] == if keep(x) then multiset(s)[x] else 0
  {
    assert s == [s[0]] + s[1..];
    assert multiset(s) == multiset{s[0]} + multiset(s[1..]);
    assert multiset([s[0]] + rest) == multiset{s[0]} + multiset(rest);
  }

  /** One step of `Keep`: a kept head of a sorted list is no greater than the kept tail. */
  lemma KeptSorted(s: seq<string>, keep: string -> bool, rest: seq<string>)
    requires s != []
    requires forall x | x in rest :: x in s[1..]
    requires Sorted(s[1..]) ==> Sorted(rest)
    ensures Sorted(s) ==> Sorted(if keep(s[0]) then [s[0]] + rest else rest)
  {
    if Sorted(s) {
      assert Sorted(s[1..]);
      if keep(s[0]) {
        forall z | z in rest ensures LessEq(s[0], z) {
          assert z in s;
          HeadIsLeast(s, z);
        }
        PrependSorted(s[0], rest);
      }
    }
  }

  /** One step of `Keep`: the head of a list without repetitions is not in the kept tail. */
  lemma KeptDistinct(s: seq<string>, keep: string -> bool, rest: seq<string>)
    requires s != []
    requires forall x | x in rest :: x in s[1..]
    requires Distinct(s[1..]) ==> Distinct(rest)
    ensures Distinct(s) ==> Distinct(if keep(s[0]) then [s[0]] + rest else rest)
  {
    if Distinct(s) {
      assert Distinct(s[1..]);
      if keep(s[0]) {
        assert s[0] !in s[1..];
        PrependDistinct(s[0], rest);
      }
    }
  }

  /** `[lang for lang in names if lang != "Auto Detect"]`: the names a target can be. */
  function WithoutAutoDetect(names: seq<string>): (r: seq<string>)
    ensures forall x :: x in r <==> x in names && x != AutoDetect
    ensures Sorted(names) ==> Sorted(r)
    ensures Distinct(names) ==> Distinct(r)
  {
    Keep(names, x => x != AutoDetect)
  }

  /** `[lang for lang in names if query in lang.lower()]`. */
  function MatchingNames(names: seq<string>, query: string): (r: seq<string>)
    ensures forall x :: x in r <==> x in names && Contains(Lower(x), query)
    ensures Sorted(names) ==> Sorted(r)
    ensures Distinct(names) ==> Distinct(r)
  {
    Keep(names, x => Contains(Lower(x), query))
  }

  /** The first name whose lower-cased form is exactly `query`, if any. */
  function FirstExactMatch(names: seq<string>, query: string): (r: Option<string>)
    ensures r.None? <==> forall x | x in names :: Lower(x) != query
    ensures r.Some? ==> exists i | 0 <= i < |names| ::
      names[i] == r.value && Lower(r.value) == query && forall j | 0 <= j < i :: Lower(names[j]) != query
  {
    if names == [] then None
    else if Lower(names[0]) == query then Some(names[0])
    else
      var r := FirstExactMatch(names[1..], query);
      assert names == [names[0]] + names[1..];
      if r.Some? then
        var i :| 0 <= i < |names[1..]| && names[1..][i] == r.value && Lower(r.value) == query
          && forall j | 0 <= j < i :: Lower(names[1..][j]) != query;
        FirstMatchInTail(names, query, i);
        r
      else
        r
  }

  /** A first match at `i` in the tail of `names` is a first match at `i + 1` in `names`. */
  lemma FirstMatchInTail(names: seq<string>, query: string, i: nat)
    requires names != [] && Lower(names[0]) != query
    requires i < |names[1..]| && Lower(names[1..][i]) == query
    requires forall j | 0 <= j < i :: Lower(names[1..][j]) != query
    ensures names[i + 1] == names[1..][i]
    ensures forall j | 0 <= j < i + 1 :: Lower(names[j]) != query
  {
    forall j | 0 <= j < i + 1 ensures Lower(names[j]) != query {
      if j > 0 {
        assert names[j] == names[1..][j - 1];
      }
    }
  }

  /**
   * The loop of the search handlers that stops at the first name equal to
   * the query once lower-cased.
   */
  method FindExactMatch(names: seq<string>, query: string) returns (found: Option<string>)
    ensures found == FirstExactMatch(names, query)
  {
    found := None;
    var i := 0;
    while i < |names|
      invariant 0 <= i <= |names|
      invariant FirstExactMatch(names, query) == FirstExactMatch(names[i..], query)
    {
      if Lower(names[i]) == query {
        found := Some(names[i]);
        break;
      }
      assert names[i..][1..] == names[i + 1..];
      i := i + 1;
    }
  }

  /**
   * The body of a search handler on a box listing `all`, apart from the
   * writes to the box: the names to list, and the text the box is left with.
   */
  method SearchNames(all: seq<string>, typed: string) returns (r: SearchResult)
    ensures r == Search(all, typed)
  {
    var searchText := Lower(typed);
    if searchText != [] {
      var filtered := MatchingNames(all, searchText);
      var found := FindExactMatch(all, searchText);
      var chosen := typed;
      if found.Some? {
        chosen := found.value;
      }
      r := SearchResult(filtered, chosen);
    } else {
      r := SearchResult(all, typed);
    }
  }

  /** The names of the registry, in the order the language boxes list them. */
  function AllNames(): (r: seq<string>)
    ensures Sorted(r)
    ensures forall x :: x in r <==> x in Names(Languages)
  {
    var r := GetLanguageNames();
    GetLanguageNamesIsSortedKeys(r);
    assert forall x :: x in r <==> x in multiset(Names(Languages));
    r
  }

  /** The source box lists each of the 76 registry names exactly once. */
  lemma AllNamesOnce()
    ensures multiset(AllNames()) == multiset(Names(Languages))
    ensures Distinct(AllNames()) && |AllNames()| == 76
  {
    GetLanguageNamesIsSortedKeys(AllNames());
  }

  /** The names the two boxes start with are among those they list. */
  lemma StartingNamesListed()
    ensures AutoDetect in AllNames()
    ensures "Spanish" in TargetNames()
  {
    LanguagesHead();
    assert Names(Languages)[0] == AutoDetect && Names(Languages)[2] == "Spanish";
  }

  /** The names the target box lists. */
  function TargetNames(): (r: seq<string>)
    ensures Sorted(r) && Distinct(r)
    ensures forall x :: x in r <==> x in Names(Languages) && x != AutoDetect
  {
    AllNamesOnce();
    WithoutAutoDetect(AllNames())
  }

  /** What a search handler does to its box: the listed names, and the chosen name. */
  datatype SearchResult = SearchResult(choices: seq<string>, chosen: string)

  /**
   * A search handler on a box listing `all`, whose text is `typed`: a non-empty
   * query narrows the list to the names containing it, ignoring case, and the
   * first name equal to the query, ignoring case, replaces the text; an empty
   * query lists all names. `SearchChoosesMatch` states what the text becomes.
   */
  function Search(all: seq<string>, typed: string): (r: SearchResult)
    ensures Lower(typed) == [] ==> r == SearchResult(all, typed)
    ensures Lower(typed) != [] ==> r.choices == MatchingNames(all, Lower(typed))
    ensures Lower(typed) != [] ==> forall x :: x in r.choices <==> x in all && Contains(Lower(x), Lower(typed))
    ensures Sorted(all) ==> Sorted(r.choices)
    ensures Distinct(all) ==> Distinct(r.choices)
    ensures Lower(typed) != [] && FirstExactMatch(all, Lower(typed)).Some? ==>
      r.chosen == FirstExactMatch(all, Lower(typed)).value
  {
    var query := Lower(typed);
    if query != [] then
      var chosen := match FirstExactMatch(all, query)
        case Some(name) => name
        case None => typed;
      SearchResult(MatchingNames(all, query), chosen)
    else
      SearchResult(all, typed)
  }

  /**
   * The text a search leaves in the box: a name of `all` equal to the query,
   * ignoring case, when there is one, and otherwise the typed text unchanged.
   */
  lemma SearchChoosesMatch(all: seq<string>, typed: string)
    ensures var r := Search(all, typed);
      && ((exists x | x in all :: Lower(x) == Lower(typed)) ==> r.chosen in all && Lower(r.chosen) == Lower(typed))
      && ((forall x | x in all :: Lower(x) != Lower(typed)) ==> r.chosen == typed)
  {
    var q := Lower(typed);
    if q != [] && FirstExactMatch(all, q).Some? {
      var i :| 0 <= i < |all| && all[i] == FirstExactMatch(all, q).value && Lower(all[i]) == q
        && forall j | 0 <= j < i :: Lower(all[j]) != q;
    }
  }

  /**
   * When the text a search leaves in the box is one of the names it
   * searched, that name is among the names the box then lists.
   */
  lemma ChosenIsListed(all: seq<string>, typed: string)
    ensures var r := Search(all, typed);
      r.chosen in all ==> r.chosen in r.choices
  {
    var r := Search(all, typed);
    var q := Lower(typed);
    if q != [] && r.chosen in all {
      assert Lower(r.chosen) == q;
      assert OccursAt(q, q, 0);
    }
  }

  // The progress messages.

  /** The messages the progress label cycles through while a translation runs. */
  const ProgressMessages: seq<string> := [
    "\U{1F504} Translating your text...",
    "\U{1F310} Connecting to translation service...",
    "\U{1F3AF} Processing language patterns...",
    "\U{2728} Generating translation..."
  ]

  /** There are four progress messages, all different. */
  lemma ProgressMessagesDistinct()
    ensures |ProgressMessages| == 4 && Distinct(ProgressMessages)
  {
    assert Distinct(ProgressMessages);
  }

  /**
   * `(messages.index(current) + 1) % len(messages)`, or 0 when the label
   * shows none of the messages.
   */
  function NextProgressIndex(current: string): (i: nat)
    ensures i < |ProgressMessages|
    ensures current !in ProgressMessages ==> i == 0
    ensures forall k | 0 <= k < |ProgressMessages| && ProgressMessages[k] == current ::
      i == (k + 1) % |ProgressMessages|
  {
    ProgressMessagesDistinct();
    match FirstIndex(ProgressMessages, current)
    case Some(k) => (k + 1) % |ProgressMessages|
    case None => 0
  }

  /** The message the progress label shows after one step. */
  function NextProgressText(current: string): (r: string)
    ensures r in ProgressMessages
  {
    ProgressMessages[NextProgressIndex(current)]
  }

  /**
   * Each step moves to the next message, and four steps come back to the
   * message they started from.
   */
  lemma {:induction false} ProgressCycles(k: nat)
    requires k < |ProgressMessages|
    ensures NextProgressText(ProgressMessages[k]) == ProgressMessages[(k + 1) % 4]
    ensures NextProgressText(NextProgressText(NextProgressText(NextProgressText(ProgressMessages[k]))))
      == ProgressMessages[k]
  {
    var m := ProgressMessages;
    assert NextProgressText(m[0]) == m[1];
    assert NextProgressText(m[1]) == m[2];
    assert NextProgressText(m[2]) == m[3];
    assert NextProgressText(m[3]) == m[0];
  }

  // The saved file.

  /** The line under the title: 31 equals signs. */
  function Rule(): (r: string)
    ensures |r| == 31 && forall i | 0 <= i < |r| :: r[i] == '='
  {
    "=" + seq(30, _ => '=')
  }

  /**
   * The text `save_translation` writes, one `write` call after another; a
   * `"\n\n"` of the source is written as two newlines. It opens with the
   * title line and closes with the translation and a newline;
   * `SaveFileLines` states it line by line.
   */
  function SaveFileText(sourceLang: string, targetLang: string, original: string, translation: string): (r: string)
    ensures |r| > 26 + |translation| && r[..26] == "Phrase Bridge Translation\n"
    ensures r[|r| - |translation| - 1..] == translation + "\n"
  {
    var head := "Phrase Bridge Translation" + "\n"
      + Rule() + "\n" + "\n"
      + ("Source Language: " + sourceLang) + "\n"
      + ("Target Language: " + targetLang) + "\n" + "\n"
      + "Original Text:" + "\n" + original + "\n" + "\n"
      + "Translation:" + "\n";
    assert head[..26] == "Phrase Bridge Translation\n";
    var r := head + translation + "\n";
    assert r[..26] == head[..26];
    assert r[|r| - |translation| - 1..] == translation + "\n";
    r
  }

  /**
   * `s.split("\n")`: the pieces of `s` between its newlines, read from the
   * left: a newline opens a new, empty piece, any other character extends
   * the last piece.
   */
  function Lines(s: string): (r: seq<string>)
    ensures |r| >= 1
  {
    if s == [] then [""]
    else
      var init := Lines(s[..|s| - 1]);
      var c := s[|s| - 1];
      if c == '\n' then init + [""]
      else init[..|init| - 1] + [init[|init| - 1] + [c]]
  }

  /** One more character: a newline opens a line, anything else extends the last one. */
  lemma LinesPush(t: string, c: char)
    ensures var l := Lines(t);
      Lines(t + [c]) == if c == '\n' then l + [""] else l[..|l| - 1] + [l[|l| - 1] + [c]]
  {
    assert (t + [c])[..|t|] == t;
  }

  /** Splitting at a newline splits the lines. */
  lemma {:induction false} LinesOfJoin(a: string, b: string)
    ensures Lines(a + "\n" + b) == Lines(a) + Lines(b)
    decreases |b|
  {
    if b == [] {
      LinesPush(a, '\n');
      assert a + "\n" + b == a + ['\n'];
    } else {
      var front, c := b[..|b| - 1], b[|b| - 1];
      LinesOfJoin(a, front);
      JoinPush(a, front, c);
      assert b == front + [c];
    }
  }

  /** The step of `LinesOfJoin`: one more character after the joining newline. */
  lemma JoinPush(a: string, front: string, c: char)
    requires Lines(a + "\n" + front) == Lines(a) + Lines(front)
    ensures Lines(a + "\n" + (front + [c])) == Lines(a) + Lines(front + [c])
  {
    var t := a + "\n" + front;
    assert a + "\n" + (front + [c]) == t + [c];
    LinesPush(t, c);
    LinesPush(front, c);
    ExtendLast(Lines(a), Lines(front), c);
  }

  /** Extending the last piece of a concatenation extends the last piece of its second part. */
  lemma ExtendLast(la: seq<string>, lf: seq<string>, c: char)
    requires |lf| >= 1
    ensures var l := la + lf;
      && l + [""] == la + (lf + [""])
      && l[..|l| - 1] + [l[|l| - 1] + [c]] == la + (lf[..|lf| - 1] + [lf[|lf| - 1] + [c]])
  {
    var l := la + lf;
    assert l[..|l| - 1] == la + lf[..|lf| - 1];
  }

  /** A piece of text without a newline is one line. */
  lemma {:induction false} OneLine(a: string)
    requires '\n' !in a
    ensures Lines(a) == [a]
  {
    if a != [] {
      var front := a[..|a| - 1];
      assert '\n' !in front by {
        forall i | 0 <= i < |front| ensures front[i] != '\n' {
          assert front[i] == a[i];
        }
      }
      OneLine(front);
      assert front + [a[|a| - 1]] == a;
    }
  }

  lemma HeadingsAreLines(sourceLang: string, targetLang: string)
    requires '\n' !in sourceLang && '\n' !in targetLang
    ensures '\n' !in "Phrase Bridge Translation" && '\n' !in Rule()
    ensures '\n' !in "Original Text:" && '\n' !in "Translation:"
    ensures '\n' !in "Source Language: " + sourceLang
    ensures '\n' !in "Target Language: " + targetLang
  {
  }

  /** Joining one more line adds it to the lines. */
  lemma AppendLine(a: string, x: string)
    requires '\n' !in x
    ensures Lines(a + "\n" + x) == Lines(a) + [x]
  {
    LinesOfJoin(a, x);
    OneLine(x);
  }

  /** Seven lines, two of them blank, joined as the head of the saved file joins them. */
  lemma HeadLines(t: string, r: string, x: string, y: string, h: string)
    requires '\n' !in t && '\n' !in r && '\n' !in x && '\n' !in y && '\n' !in h
    ensures Lines(t + "\n" + r + "\n" + "\n" + x + "\n" + y + "\n" + "\n" + h)
      == [t, r, "", x, y, "", h]
  {
    var p2 := t + "\n" + r;
    OneLine(t);
    AppendLine(t, r);
    assert Lines(p2) == [t, r];
    var p3 := p2 + "\n";
    AppendLine(p2, "");
    assert p2 + "\n" + "" == p3;
    assert Lines(p3) == [t, r, ""];
    var p4 := p3 + "\n" + x;
    AppendLine(p3, x);
    assert Lines(p4) == [t, r, "", x];
    var p5 := p4 + "\n" + y;
    AppendLine(p4, y);
    assert Lines(p5) == [t, r, "", x, y];
    var p6 := p5 + "\n";
    AppendLine(p5, "");
    assert p5 + "\n" + "" == p6;
    assert Lines(p6) == [t, r, "", x, y, ""];
    AppendLine(p6, h);
  }

  /**
   * The saved file, line by line: a title, the rule, a blank line, the two
   * languages, a blank line, the original text under its heading, a blank
   * line, then the translation under its heading, and a final newline.
   */
  lemma SaveFileLines(sourceLang: string, targetLang: string, original: string, translation: string)
    requires '\n' !in sourceLang && '\n' !in targetLang
    ensures Lines(SaveFileText(sourceLang, targetLang, original, translation)) ==
      ["Phrase Bridge Translation", Rule(), "",
       "Source Language: " + sourceLang, "Target Language: " + targetLang, "",
       "Original Text:"] + Lines(original) + ["", "Translation:"] + Lines(translation) + [""]
  {
    var head := ["Phrase Bridge Translation", Rule(), "",
                 "Source Language: " + sourceLang, "Target Language: " + targetLang, "",
                 "Original Text:"];
    var p7 := "Phrase Bridge Translation" + "\n" + Rule() + "\n" + "\n"
              + ("Source Language: " + sourceLang) + "\n"
              + ("Target Language: " + targetLang) + "\n" + "\n" + "Original Text:";
    HeadingsAreLines(sourceLang, targetLang);
    HeadLines("Phrase Bridge Translation", Rule(), "Source Language: " + sourceLang,
              "Target Language: " + targetLang, "Original Text:");
    assert Lines(p7) == head;
    var p8 := p7 + "\n" + original;
    LinesOfJoin(p7, original);
    assert Lines(p8) == head + Lines(original);
    var p9 := p8 + "\n";
    AppendLine(p8, "");
    assert p8 + "\n" + "" == p9;
    assert Lines(p9) == head + Lines(original) + [""];
    var p10 := p9 + "\n" + "Translation:";
    AppendLine(p9, "Translation:");
    assert Lines(p10) == head + Lines(original) + ["", "Translation:"];
    var p11 := p10 + "\n" + translation;
    LinesOfJoin(p10, translation);
    assert Lines(p11) == head + Lines(original) + ["", "Translation:"] + Lines(translation);
    var p12 := p11 + "\n";
    AppendLine(p11, "");
    assert p11 + "\n" + "" == p12;
    assert SaveFileText(sourceLang, targetLang, original, translation) == p12;
  }
}
