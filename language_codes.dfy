/**
 * The language registry: a fixed table from display name to language code,
 * with the sentinel entry "Auto Detect" for automatic detection, and the
 * three lookups the application makes in it.
 */
module LanguageCodes {
  import opened Options
  import opened Text
  import opened Sorting

  /** One registry entry: a display name and its language code. */
  type Entry = (string, string)

  /** The sentinel entry that asks the backend to detect the language. */
  const AutoDetect := "Auto Detect"
  const AutoCode := "auto"
  /** The answer of `get_language_code` for a name that is not in the table. */
  const DefaultCode := "en"
  /** The answer of `get_language_name` for a code that is not in the table. */
  const DefaultName := "English"

  /**
   * The registry in declaration order, which is also the iteration order of
   * the dictionary. It is written as rows of eight entries so that the
   * uniqueness of names and codes can be proved one pair of rows at a time.
   */
  const LanguageRows: seq<seq<Entry>> := [
    [
      ("Auto Detect", "auto"),
      ("English", "en"),
      ("Spanish", "es"),
      ("French", "fr"),
      ("German", "de"),
      ("Italian", "it"),
      ("Portuguese", "pt"),
      ("Russian", "ru")
    ],
    [
      ("Chinese (Simplified)", "zh-cn"),
      ("Chinese (Traditional)", "zh-tw"),
      ("Japanese", "ja"),
      ("Korean", "ko"),
      ("Arabic", "ar"),
      ("Hindi", "hi"),
      ("Dutch", "nl"),
      ("Polish", "pl")
    ],
    [
      ("Turkish", "tr"),
      ("Swedish", "sv"),
      ("Norwegian", "no"),
      ("Danish", "da"),
      ("Finnish", "fi"),
      ("Greek", "el"),
      ("Hebrew", "he"),
      ("Thai", "th")
    ],
    [
      ("Vietnamese", "vi"),
      ("Indonesian", "id"),
      ("Malay", "ms"),
      ("Czech", "cs"),
      ("Hungarian", "hu"),
      ("Romanian", "ro"),
      ("Bulgarian", "bg"),
      ("Croatian", "hr")
    ],
    [
      ("Slovak", "sk"),
      ("Slovenian", "sl"),
      ("Estonian", "et"),
      ("Latvian", "lv"),
      ("Lithuanian", "lt"),
      ("Ukrainian", "uk"),
      ("Bengali", "bn"),
      ("Tamil", "ta")
    ],
    [
      ("Telugu", "te"),
      ("Gujarati", "gu"),
      ("Marathi", "mr"),
      ("Punjabi", "pa"),
      ("Urdu", "ur"),
      ("Persian", "fa"),
      ("Swahili", "sw"),
      ("Afrikaans", "af")
    ],
    [
      ("Albanian", "sq"),
      ("Armenian", "hy"),
      ("Azerbaijani", "az"),
      ("Basque", "eu"),
      ("Belarusian", "be"),
      ("Bosnian", "bs"),
      ("Catalan", "ca"),
      ("Filipino", "tl")
    ],
    [
      ("Galician", "gl"),
      ("Georgian", "ka"),
      ("Icelandic", "is"),
      ("Irish", "ga"),
      ("Kazakh", "kk"),
      ("Kurdish", "ku"),
      ("Kyrgyz", "ky"),
      ("Latin", "la")
    ],
    [
      ("Luxembourgish", "lb"),
      ("Macedonian", "mk"),
      ("Maltese", "mt"),
      ("Mongolian", "mn"),
      ("Nepali", "ne"),
      ("Pashto", "ps"),
      ("Serbian", "sr"),
      ("Sinhala", "si")
    ],
    [
      ("Tajik", "tg"),
      ("Uzbek", "uz"),
      ("Welsh", "cy"),
      ("Yiddish", "yi")
    ]
  ]

  const Languages: seq<Entry> := Flatten(LanguageRows)

  function Flatten<T>(rows: seq<seq<T>>): seq<T> {
    if rows == [] then [] else rows[0] + Flatten(rows[1..])
  }

  /** The display names of `t`, in order. */
  function Names(t: seq<Entry>): (r: seq<string>)
    ensures |r| == |t| && forall i | 0 <= i < |t| :: r[i] == t[i].0
  {
    seq(|t|, i requires 0 <= i < |t| => t[i].0)
  }

  /** The language codes of `t`, in order. */
  function Codes(t: seq<Entry>): (r: seq<string>)
    ensures |r| == |t| && forall i | 0 <= i < |t| :: r[i] == t[i].1
  {
    seq(|t|, i requires 0 <= i < |t| => t[i].1)
  }

  predicate Disjoint(a: seq<string>, b: seq<string>) {
    forall x | x in a :: x !in b
  }

  /**
   * A registry in which names are unique keys (as in any dictionary) and no
   * code belongs to two names.
   */
  predicate WellFormed(t: seq<Entry>) {
    Distinct(Names(t)) && Distinct(Codes(t))
  }

  /** The position of the first occurrence of `x` in `s`, if any. */
  function FirstIndex(s: seq<string>, x: string): (r: Option<nat>)
    ensures r.None? <==> x !in s
    ensures r.Some? ==> r.value < |s| && s[r.value] == x && x !in s[..r.value]
  {
    if s == [] then None
    else if s[0] == x then Some(0)
    else
      match FirstIndex(s[1..], x)
      case None => None
      case Some(i) =>
        assert s[..i + 1] == [s[0]] + s[1..][..i];
        Some(i + 1)
  }

  /** In a list without repetitions, the first occurrence is the only one. */
  lemma FirstIndexOfDistinct(s: seq<string>, i: nat)
    requires Distinct(s) && i < |s|
    ensures FirstIndex(s, s[i]) == Some(i)
  {
  }

  /** `dict.get(name, "en")` on the registry `t`. */
  function CodeIn(t: seq<Entry>, name: string): (r: string)
    ensures name in Names(t) ==> (name, r) in t
    ensures name !in Names(t) ==> r == DefaultCode
  {
    match FirstIndex(Names(t), name)
    case Some(i) => t[i].1
    case None => DefaultCode
  }

  /**
   * The loop of `get_language_name` on the registry `t`: the name of the
   * first entry, in declaration order, whose code is `code`.
   */
  function NameIn(t: seq<Entry>, code: string): (r: string)
    ensures code in Codes(t) ==>
      exists i | 0 <= i < |t| :: t[i] == (r, code) && code !in Codes(t[..i])
    ensures code !in Codes(t) ==> r == DefaultName
  {
    match FirstIndex(Codes(t), code)
    case Some(i) =>
      assert Codes(t[..i]) == Codes(t)[..i];
      t[i].0
    case None => DefaultName
  }

  /** With unique names, every name is mapped to the code of its own entry. */
  lemma CodeInEntry(t: seq<Entry>, i: nat)
    requires Distinct(Names(t)) && i < |t|
    ensures CodeIn(t, t[i].0) == t[i].1
  {
    FirstIndexOfDistinct(Names(t), i);
  }

  /** With unique codes, every code is mapped to the name of its own entry. */
  lemma NameInEntry(t: seq<Entry>, i: nat)
    requires Distinct(Codes(t)) && i < |t|
    ensures NameIn(t, t[i].1) == t[i].0
  {
    FirstIndexOfDistinct(Codes(t), i);
  }

  /** Name to code to name is the identity on the names of a well-formed registry. */
  lemma NameCodeRoundTrip(t: seq<Entry>, name: string)
    requires WellFormed(t) && name in Names(t)
    ensures NameIn(t, CodeIn(t, name)) == name
  {
    var i :| 0 <= i < |t| && Names(t)[i] == name;
    CodeInEntry(t, i);
    NameInEntry(t, i);
  }

  /** Code to name to code is the identity on the codes of a registry with unique names. */
  lemma CodeNameRoundTrip(t: seq<Entry>, code: string)
    requires Distinct(Names(t)) && code in Codes(t)
    ensures CodeIn(t, NameIn(t, code)) == code
  {
    var i :| 0 <= i < |t| && t[i] == (NameIn(t, code), code);
    CodeInEntry(t, i);
  }

  // The uniqueness of the registry's names and codes, row by row.

  function NameRows(rows: seq<seq<Entry>>): (r: seq<seq<string>>)
    ensures |r| == |rows| && forall k | 0 <= k < |rows| :: r[k] == Names(rows[k])
  {
    seq(|rows|, k requires 0 <= k < |rows| => Names(rows[k]))
  }

  function CodeRows(rows: seq<seq<Entry>>): (r: seq<seq<string>>)
    ensures |r| == |rows| && forall k | 0 <= k < |rows| :: r[k] == Codes(rows[k])
  {
    seq(|rows|, k requires 0 <= k < |rows| => Codes(rows[k]))
  }

  lemma {:induction false} ColumnsOfFlatten(rows: seq<seq<Entry>>)
    ensures Names(Flatten(rows)) == Flatten(NameRows(rows))
    ensures Codes(Flatten(rows)) == Flatten(CodeRows(rows))
  {
    if rows != [] {
      ColumnsOfFlatten(rows[1..]);
      assert NameRows(rows)[1..] == NameRows(rows[1..]);
      assert CodeRows(rows)[1..] == CodeRows(rows[1..]);
      var a, b := rows[0], Flatten(rows[1..]);
      assert Names(a + b) == Names(a) + Names(b);
      assert Codes(a + b) == Codes(a) + Codes(b);
    }
  }

  lemma {:induction false} InFlatten(x: string, rows: seq<seq<string>>)
    requires x in Flatten(rows)
    ensures exists k | 0 <= k < |rows| :: x in rows[k]
  {
    if x !in rows[0] {
      InFlatten(x, rows[1..]);
      var k :| 0 <= k < |rows[1..]| && x in rows[1..][k];
      assert x in rows[k + 1];
    }
  }

  /** Rows without repetitions that share nothing flatten to a list without repetitions. */
  lemma {:induction false} DistinctFlatten(rows: seq<seq<string>>)
    requires forall k | 0 <= k < |rows| :: Distinct(rows[k])
    requires forall k, l | 0 <= k < l < |rows| :: Disjoint(rows[k], rows[l])
    ensures Distinct(Flatten(rows))
  {
    if rows != [] {
      DistinctFlatten(rows[1..]);
      var a, b := rows[0], Flatten(rows[1..]);
      forall x | x in b
        ensures x !in a
      {
        InFlatten(x, rows[1..]);
        var k :| 0 <= k < |rows[1..]| && x in rows[1..][k];
        assert Disjoint(rows[0], rows[k + 1]);
      }
      forall i, j | 0 <= i < j < |a + b|
        ensures (a + b)[i] != (a + b)[j]
      {
        if i >= |a| {
          assert (a + b)[i] == b[i - |a|] && (a + b)[j] == b[j - |a|];
        } else if j >= |a| {
          assert (a + b)[j] == b[j - |a|] && b[j - |a|] in b;
          assert (a + b)[i] == a[i] && a[i] in a;
        } else {
          assert Distinct(rows[0]);
          assert (a + b)[i] == a[i] && (a + b)[j] == a[j];
        }
      }
    }
  }

  // The registry holds no name and no code twice. The 76 entries are cut
  // into ten rows of at most eight, and the facts are proved for each row
  // (`RowDistinctK`, its names and its codes apart) and for each pair of
  // rows (`RowsApartK_L`) on its own:
  // every such proof compares a few dozen string literals, which the
  // verifier settles quickly, whereas one proof over all 76 entries at once
  // would have to compare thousands of pairs in a single obligation.
  // `DistinctFlatten` then joins the rows.

  lemma RowsApart0_1()
    ensures Disjoint(Names(LanguageRows[0]), Names(LanguageRows[1]))
    ensures Disjoint(Codes(LanguageRows[0]), Codes(LanguageRows[1]))
  {
  }

  lemma RowsApart0_2()
    ensures Disjoint(Names(LanguageRows[0]), Names(LanguageRows[2]))
    ensures Disjoint(Codes(LanguageRows[0]), Codes(LanguageRows[2]))
  {
  }

  lemma RowsApart0_3()
    ensures Disjoint(Names(LanguageRows[0]), Names(LanguageRows[3]))
    ensures Disjoint(Codes(LanguageRows[0]), Codes(LanguageRows[3]))
  {
  }

  lemma RowsApart0_4()
    ensures Disjoint(Names(LanguageRows[0]), Names(LanguageRows[4]))
    ensures Disjoint(Codes(LanguageRows[0]), Codes(LanguageRows[4]))
  {
  }

  lemma RowsApart0_5()
    ensures Disjoint(Names(LanguageRows[0]), Names(LanguageRows[5]))
    ensures Disjoint(Codes(LanguageRows[0]), Codes(LanguageRows[5]))
  {
  }

  lemma RowsApart0_6()
    ensures Disjoint(Names(LanguageRows[0]), Names(LanguageRows[6]))
    ensures Disjoint(Codes(LanguageRows[0]), Codes(LanguageRows[6]))
  {
  }

  lemma RowsApart0_7()
    ensures Disjoint(Names(LanguageRows[0]), Names(LanguageRows[7]))
    ensures Disjoint(Codes(LanguageRows[0]), Codes(LanguageRows[7]))
  {
  }

  lemma RowsApart0_8()
    ensures Disjoint(Names(LanguageRows[0]), Names(LanguageRows[8]))
    ensures Disjoint(Codes(LanguageRows[0]), Codes(LanguageRows[8]))
  {
  }

  lemma RowsApart0_9()
    ensures Disjoint(Names(LanguageRows[0]), Names(LanguageRows[9]))
    ensures Disjoint(Codes(LanguageRows[0]), Codes(LanguageRows[9]))
  {
  }

  lemma RowsApart1_2()
    ensures Disjoint(Names(LanguageRows[1]), Names(LanguageRows[2]))
    ensures Disjoint(Codes(LanguageRows[1]), Codes(LanguageRows[2]))
  {
  }

  lemma RowsApart1_3()
    ensures Disjoint(Names(LanguageRows[1]), Names(LanguageRows[3]))
    ensures Disjoint(Codes(LanguageRows[1]), Codes(LanguageRows[3]))
  {
  }

  lemma RowsApart1_4()
    ensures Disjoint(Names(LanguageRows[1]), Names(LanguageRows[4]))
    ensures Disjoint(Codes(LanguageRows[1]), Codes(LanguageRows[4]))
  {
  }

  lemma RowsApart1_5()
    ensures Disjoint(Names(LanguageRows[1]), Names(LanguageRows[5]))
    ensures Disjoint(Codes(LanguageRows[1]), Codes(LanguageRows[5]))
  {
  }

  lemma RowsApart1_6()
    ensures Disjoint(Names(LanguageRows[1]), Names(LanguageRows[6]))
    ensures Disjoint(Codes(LanguageRows[1]), Codes(LanguageRows[6]))
  {
  }

  lemma RowsApart1_7()
    ensures Disjoint(Names(LanguageRows[1]), Names(LanguageRows[7]))
    ensures Disjoint(Codes(LanguageRows[1]), Codes(LanguageRows[7]))
  {
  }

  lemma RowsApart1_8()
    ensures Disjoint(Names(LanguageRows[1]), Names(LanguageRows[8]))
    ensures Disjoint(Codes(LanguageRows[1]), Codes(LanguageRows[8]))
  {
  }

  lemma RowsApart1_9()
    ensures Disjoint(Names(LanguageRows[1]), Names(LanguageRows[9]))
    ensures Disjoint(Codes(LanguageRows[1]), Codes(LanguageRows[9]))
  {
  }

  lemma RowsApart2_3()
    ensures Disjoint(Names(LanguageRows[2]), Names(LanguageRows[3]))
    ensures Disjoint(Codes(LanguageRows[2]), Codes(LanguageRows[3]))
  {
  }

  lemma RowsApart2_4()
    ensures Disjoint(Names(LanguageRows[2]), Names(LanguageRows[4]))
    ensures Disjoint(Codes(LanguageRows[2]), Codes(LanguageRows[4]))
  {
  }

  lemma RowsApart2_5()
    ensures Disjoint(Names(LanguageRows[2]), Names(LanguageRows[5]))
    ensures Disjoint(Codes(LanguageRows[2]), Codes(LanguageRows[5]))
  {
  }

  lemma RowsApart2_6()
    ensures Disjoint(Names(LanguageRows[2]), Names(LanguageRows[6]))
    ensures Disjoint(Codes(LanguageRows[2]), Codes(LanguageRows[6]))
  {
  }

  lemma RowsApart2_7()
    ensures Disjoint(Names(LanguageRows[2]), Names(LanguageRows[7]))
    ensures Disjoint(Codes(LanguageRows[2]), Codes(LanguageRows[7]))
  {
  }

  lemma RowsApart2_8()
    ensures Disjoint(Names(LanguageRows[2]), Names(LanguageRows[8]))
    ensures Disjoint(Codes(LanguageRows[2]), Codes(LanguageRows[8]))
  {
  }

  lemma RowsApart2_9()
    ensures Disjoint(Names(LanguageRows[2]), Names(LanguageRows[9]))
    ensures Disjoint(Codes(LanguageRows[2]), Codes(LanguageRows[9]))
  {
  }

  lemma RowsApart3_4()
    ensures Disjoint(Names(LanguageRows[3]), Names(LanguageRows[4]))
    ensures Disjoint(Codes(LanguageRows[3]), Codes(LanguageRows[4]))
  {
  }

  lemma RowsApart3_5()
    ensures Disjoint(Names(LanguageRows[3]), Names(LanguageRows[5]))
    ensures Disjoint(Codes(LanguageRows[3]), Codes(LanguageRows[5]))
  {
  }

  lemma RowsApart3_6()
    ensures Disjoint(Names(LanguageRows[3]), Names(LanguageRows[6]))
    ensures Disjoint(Codes(LanguageRows[3]), Codes(LanguageRows[6]))
  {
  }

  lemma RowsApart3_7()
    ensures Disjoint(Names(LanguageRows[3]), Names(LanguageRows[7]))
    ensures Disjoint(Codes(LanguageRows[3]), Codes(LanguageRows[7]))
  {
  }

  lemma RowsApart3_8()
    ensures Disjoint(Names(LanguageRows[3]), Names(LanguageRows[8]))
    ensures Disjoint(Codes(LanguageRows[3]), Codes(LanguageRows[8]))
  {
  }

  lemma RowsApart3_9()
    ensures Disjoint(Names(LanguageRows[3]), Names(LanguageRows[9]))
    ensures Disjoint(Codes(LanguageRows[3]), Codes(LanguageRows[9]))
  {
  }

  lemma RowsApart4_5()
    ensures Disjoint(Names(LanguageRows[4]), Names(LanguageRows[5]))
    ensures Disjoint(Codes(LanguageRows[4]), Codes(LanguageRows[5]))
  {
  }

  lemma RowsApart4_6()
    ensures Disjoint(Names(LanguageRows[4]), Names(LanguageRows[6]))
    ensures Disjoint(Codes(LanguageRows[4]), Codes(LanguageRows[6]))
  {
  }

  lemma RowsApart4_7()
    ensures Disjoint(Names(LanguageRows[4]), Names(LanguageRows[7]))
    ensures Disjoint(Codes(LanguageRows[4]), Codes(LanguageRows[7]))
  {
  }

  lemma RowsApart4_8()
    ensures Disjoint(Names(LanguageRows[4]), Names(LanguageRows[8]))
    ensures Disjoint(Codes(LanguageRows[4]), Codes(LanguageRows[8]))
  {
  }

  lemma RowsApart4_9()
    ensures Disjoint(Names(LanguageRows[4]), Names(LanguageRows[9]))
    ensures Disjoint(Codes(LanguageRows[4]), Codes(LanguageRows[9]))
  {
  }

  lemma RowsApart5_6()
    ensures Disjoint(Names(LanguageRows[5]), Names(LanguageRows[6]))
    ensures Disjoint(Codes(LanguageRows[5]), Codes(LanguageRows[6]))
  {
  }

  lemma RowsApart5_7()
    ensures Disjoint(Names(LanguageRows[5]), Names(LanguageRows[7]))
    ensures Disjoint(Codes(LanguageRows[5]), Codes(LanguageRows[7]))
  {
  }

  lemma RowsApart5_8()
    ensures Disjoint(Names(LanguageRows[5]), Names(LanguageRows[8]))
    ensures Disjoint(Codes(LanguageRows[5]), Codes(LanguageRows[8]))
  {
  }

  lemma RowsApart5_9()
    ensures Disjoint(Names(LanguageRows[5]), Names(LanguageRows[9]))
    ensures Disjoint(Codes(LanguageRows[5]), Codes(LanguageRows[9]))
  {
  }

  lemma RowsApart6_7()
    ensures Disjoint(Names(LanguageRows[6]), Names(LanguageRows[7]))
    ensures Disjoint(Codes(LanguageRows[6]), Codes(LanguageRows[7]))
  {
  }

  lemma RowsApart6_8()
    ensures Disjoint(Names(LanguageRows[6]), Names(LanguageRows[8]))
    ensures Disjoint(Codes(LanguageRows[6]), Codes(LanguageRows[8]))
  {
  }

  lemma RowsApart6_9()
    ensures Disjoint(Names(LanguageRows[6]), Names(LanguageRows[9]))
    ensures Disjoint(Codes(LanguageRows[6]), Codes(LanguageRows[9]))
  {
  }

  lemma RowsApart7_8()
    ensures Disjoint(Names(LanguageRows[7]), Names(LanguageRows[8]))
    ensures Disjoint(Codes(LanguageRows[7]), Codes(LanguageRows[8]))
  {
  }

  lemma RowsApart7_9()
    ensures Disjoint(Names(LanguageRows[7]), Names(LanguageRows[9]))
    ensures Disjoint(Codes(LanguageRows[7]), Codes(LanguageRows[9]))
  {
  }

  lemma RowsApart8_9()
    ensures Disjoint(Names(LanguageRows[8]), Names(LanguageRows[9]))
    ensures Disjoint(Codes(LanguageRows[8]), Codes(LanguageRows[9]))
  {
  }

  lemma RowDistinct0()
    ensures Distinct(Names(LanguageRows[0])) && Distinct(Codes(LanguageRows[0]))
  {
    RowNamesDistinct0();
    RowCodesDistinct0();
  }

  lemma RowNamesDistinct0()
    ensures Distinct(Names(LanguageRows[0]))
  {
  }

  lemma RowCodesDistinct0()
    ensures Distinct(Codes(LanguageRows[0]))
  {
  }

  lemma RowDistinct1()
    ensures Distinct(Names(LanguageRows[1])) && Distinct(Codes(LanguageRows[1]))
  {
    RowNamesDistinct1();
    RowCodesDistinct1();
  }

  lemma RowNamesDistinct1()
    ensures Distinct(Names(LanguageRows[1]))
  {
  }

  lemma RowCodesDistinct1()
    ensures Distinct(Codes(LanguageRows[1]))
  {
  }

  lemma RowDistinct2()
    ensures Distinct(Names(LanguageRows[2])) && Distinct(Codes(LanguageRows[2]))
  {
    RowNamesDistinct2();
    RowCodesDistinct2();
  }

  lemma RowNamesDistinct2()
    ensures Distinct(Names(LanguageRows[2]))
  {
  }

  lemma RowCodesDistinct2()
    ensures Distinct(Codes(LanguageRows[2]))
  {
  }

  lemma RowDistinct3()
    ensures Distinct(Names(LanguageRows[3])) && Distinct(Codes(LanguageRows[3]))
  {
    RowNamesDistinct3();
    RowCodesDistinct3();
  }

  lemma RowNamesDistinct3()
    ensures Distinct(Names(LanguageRows[3]))
  {
  }

  lemma RowCodesDistinct3()
    ensures Distinct(Codes(LanguageRows[3]))
  {
  }

  lemma RowDistinct4()
    ensures Distinct(Names(LanguageRows[4])) && Distinct(Codes(LanguageRows[4]))
  {
    RowNamesDistinct4();
    RowCodesDistinct4();
  }

  lemma RowNamesDistinct4()
    ensures Distinct(Names(LanguageRows[4]))
  {
  }

  lemma RowCodesDistinct4()
    ensures Distinct(Codes(LanguageRows[4]))
  {
  }

  lemma RowDistinct5()
    ensures Distinct(Names(LanguageRows[5])) && Distinct(Codes(LanguageRows[5]))
  {
    RowNamesDistinct5();
    RowCodesDistinct5();
  }

  lemma RowNamesDistinct5()
    ensures Distinct(Names(LanguageRows[5]))
  {
  }

  lemma RowCodesDistinct5()
    ensures Distinct(Codes(LanguageRows[5]))
  {
  }

  lemma RowDistinct6()
    ensures Distinct(Names(LanguageRows[6])) && Distinct(Codes(LanguageRows[6]))
  {
    RowNamesDistinct6();
    RowCodesDistinct6();
  }

  lemma RowNamesDistinct6()
    ensures Distinct(Names(LanguageRows[6]))
  {
  }

  lemma RowCodesDistinct6()
    ensures Distinct(Codes(LanguageRows[6]))
  {
  }

  lemma RowDistinct7()
    ensures Distinct(Names(LanguageRows[7])) && Distinct(Codes(LanguageRows[7]))
  {
    RowNamesDistinct7();
    RowCodesDistinct7();
  }

  lemma RowNamesDistinct7()
    ensures Distinct(Names(LanguageRows[7]))
  {
  }

  lemma RowCodesDistinct7()
    ensures Distinct(Codes(LanguageRows[7]))
  {
  }

  lemma RowDistinct8()
    ensures Distinct(Names(LanguageRows[8])) && Distinct(Codes(LanguageRows[8]))
  {
    RowNamesDistinct8();
    RowCodesDistinct8();
  }

  lemma RowNamesDistinct8()
    ensures Distinct(Names(LanguageRows[8]))
  {
  }

  lemma RowCodesDistinct8()
    ensures Distinct(Codes(LanguageRows[8]))
  {
  }

  lemma RowDistinct9()
    ensures Distinct(Names(LanguageRows[9])) && Distinct(Codes(LanguageRows[9]))
  {
    RowNamesDistinct9();
    RowCodesDistinct9();
  }

  lemma RowNamesDistinct9()
    ensures Distinct(Names(LanguageRows[9]))
  {
  }

  lemma RowCodesDistinct9()
    ensures Distinct(Codes(LanguageRows[9]))
  {
  }

  lemma RowsDistinct()
    ensures forall k | 0 <= k < |LanguageRows| ::
      Distinct(Names(LanguageRows[k])) && Distinct(Codes(LanguageRows[k]))
  {
    RowDistinct0();
    RowDistinct1();
    RowDistinct2();
    RowDistinct3();
    RowDistinct4();
    RowDistinct5();
    RowDistinct6();
    RowDistinct7();
    RowDistinct8();
    RowDistinct9();
  }

  lemma RowsDisjoint()
    ensures forall k, l | 0 <= k < l < |LanguageRows| ::
      Disjoint(Names(LanguageRows[k]), Names(LanguageRows[l])) &&
      Disjoint(Codes(LanguageRows[k]), Codes(LanguageRows[l]))
  {
    RowsApart0_1();
    RowsApart0_2();
    RowsApart0_3();
    RowsApart0_4();
    RowsApart0_5();
    RowsApart0_6();
    RowsApart0_7();
    RowsApart0_8();
    RowsApart0_9();
    RowsApart1_2();
    RowsApart1_3();
    RowsApart1_4();
    RowsApart1_5();
    RowsApart1_6();
    RowsApart1_7();
    RowsApart1_8();
    RowsApart1_9();
    RowsApart2_3();
    RowsApart2_4();
    RowsApart2_5();
    RowsApart2_6();
    RowsApart2_7();
    RowsApart2_8();
    RowsApart2_9();
    RowsApart3_4();
    RowsApart3_5();
    RowsApart3_6();
    RowsApart3_7();
    RowsApart3_8();
    RowsApart3_9();
    RowsApart4_5();
    RowsApart4_6();
    RowsApart4_7();
    RowsApart4_8();
    RowsApart4_9();
    RowsApart5_6();
    RowsApart5_7();
    RowsApart5_8();
    RowsApart5_9();
    RowsApart6_7();
    RowsApart6_8();
    RowsApart6_9();
    RowsApart7_8();
    RowsApart7_9();
    RowsApart8_9();
  }

  /**
   * Rows without repetitions, no two of which share a name or a code,
   * flatten to a well-formed registry.
   */
  lemma WellFormedOfRows(rows: seq<seq<Entry>>)
    requires forall k | 0 <= k < |rows| :: Distinct(Names(rows[k])) && Distinct(Codes(rows[k]))
    requires forall k, l | 0 <= k < l < |rows| ::
      Disjoint(Names(rows[k]), Names(rows[l])) && Disjoint(Codes(rows[k]), Codes(rows[l]))
    ensures WellFormed(Flatten(rows))
  {
    ColumnsOfFlatten(rows);
    DistinctFlatten(NameRows(rows));
    DistinctFlatten(CodeRows(rows));
  }

  /** No two entries of the registry share a name or a code. */
  lemma LanguagesWellFormed()
    ensures WellFormed(Languages)
  {
    RowsDistinct();
    RowsDisjoint();
    WellFormedOfRows(LanguageRows);
  }

  /** The first entries of the registry: the sentinel, then English and Spanish. */
  lemma LanguagesHead()
    ensures |Languages| == 76
    ensures Languages[0] == (AutoDetect, AutoCode)
    ensures Languages[1] == (DefaultName, DefaultCode)
    ensures Languages[2] == ("Spanish", "es")
  {
  }

  // The three lookups of the registry.

  /** `get_language_names`: the names of the registry in ascending order. */
  function GetLanguageNames(): (r: seq<string>)
    ensures Sorted(r)
    ensures multiset(r) == multiset(Names(Languages))
  {
    Sort(Names(Languages))
  }

  /** `get_language_code`: the code of a name, or "en" for an unknown name. */
  function GetLanguageCode(name: string): (r: string)
    ensures name in Names(Languages) ==> (name, r) in Languages
    ensures name !in Names(Languages) ==> r == DefaultCode
  {
    CodeIn(Languages, name)
  }

  /**
   * `get_language_name`: the name of the first entry with the given code,
   * or "English" for an unknown code.
   */
  function GetLanguageName(code: string): (r: string)
    ensures code in Codes(Languages) ==>
      exists i | 0 <= i < |Languages| :: Languages[i] == (r, code) && code !in Codes(Languages[..i])
    ensures code !in Codes(Languages) ==> r == DefaultName
  {
    NameIn(Languages, code)
  }

  /**
   * The name list is the only ascending list of exactly the registry's
   * names: it has all 76 of them, once each, the sentinel included.
   */
  lemma GetLanguageNamesIsSortedKeys(s: seq<string>)
    requires Sorted(s) && multiset(s) == multiset(Names(Languages))
    ensures s == GetLanguageNames()
    ensures |s| == 76 && AutoDetect in s
    ensures Distinct(s)
  {
    SortedUnique(s, GetLanguageNames());
    LanguagesHead();
    LanguagesWellFormed();
    DistinctPermutation(Names(Languages), s);
    assert AutoDetect in multiset(Names(Languages));
  }

  /** A name of the registry gets the code of its own entry. */
  lemma GetLanguageCodeOfKey(i: nat)
    requires i < |Languages|
    ensures GetLanguageCode(Languages[i].0) == Languages[i].1
  {
    LanguagesWellFormed();
    CodeInEntry(Languages, i);
  }

  /** A code of the registry gets the name of its own entry. */
  lemma GetLanguageNameOfCode(i: nat)
    requires i < |Languages|
    ensures GetLanguageName(Languages[i].1) == Languages[i].0
  {
    LanguagesWellFormed();
    NameInEntry(Languages, i);
  }

  /** Looking up the code of a name and then the name of that code gives the name back. */
  lemma LanguageNameRoundTrip(name: string)
    requires name in Names(Languages)
    ensures GetLanguageName(GetLanguageCode(name)) == name
  {
    LanguagesWellFormed();
    NameCodeRoundTrip(Languages, name);
  }

  /** Looking up the name of a code and then the code of that name gives the code back. */
  lemma LanguageCodeRoundTrip(code: string)
    requires code in Codes(Languages)
    ensures GetLanguageCode(GetLanguageName(code)) == code
  {
    LanguagesWellFormed();
    CodeNameRoundTrip(Languages, code);
  }

  /** Only the sentinel has the code "auto". */
  lemma OnlySentinelIsAuto(name: string)
    requires name in Names(Languages) && name != AutoDetect
    ensures GetLanguageCode(name) != AutoCode
  {
    LanguageNameRoundTrip(name);
    LanguagesHead();
    GetLanguageNameOfCode(0);
  }

  /**
   * The two fallbacks name each other, so the code of the name of the code
   * of any string, known or not, is the code of that string.
   */
  lemma FallbacksAgree(name: string)
    ensures GetLanguageCode(DefaultName) == DefaultCode
    ensures GetLanguageName(DefaultCode) == DefaultName
    ensures GetLanguageCode(GetLanguageName(GetLanguageCode(name))) == GetLanguageCode(name)
  {
    LanguagesHead();
    GetLanguageCodeOfKey(1);
    GetLanguageNameOfCode(1);
    if name in Names(Languages) {
      LanguageNameRoundTrip(name);
    }
  }
}
