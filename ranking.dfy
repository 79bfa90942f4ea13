/** The "Top languages" line that the console and Markdown renderers print:
    the breakdown's entries sorted by weight, heaviest first and stable among
    equal weights, cut to three and joined, or "N/A" for an empty breakdown. */
module Ranking {
  import opened LanguageTally

  /** How many languages the renderers show. */
  const TopCount := 3

  /** `breakdown.items()`, in key order. */
  function Items(t: Tally): seq<LangCount>
    requires WellFormed(t)
  {
    seq(|t.keys|, i requires 0 <= i < |t.keys| => (t.keys[i], t.counts[t.keys[i]]))
  }

  /** The items are exactly the breakdown's (language, weight) entries, each
      language once. */
  lemma {:induction false} ItemsAreEntries(t: Tally)
    requires WellFormed(t)
    ensures forall e :: e in Items(t) <==> e.0 in t.counts && e.1 == t.counts[e.0]
    ensures forall i, j :: 0 <= i < j < |Items(t)| ==> Items(t)[i].0 != Items(t)[j].0
  {
    var items := Items(t);
    forall e: LangCount | e.0 in t.counts && e.1 == t.counts[e.0] ensures e in items {
      var i :| 0 <= i < |t.keys| && t.keys[i] == e.0;
      assert items[i] == e;
    }
  }

  ghost predicate NonIncreasing(s: seq<LangCount>)
  {
    forall i, j :: 0 <= i < j < |s| ==> s[i].1 >= s[j].1
  }

  /** The entries of s that have weight w, in their order in s. */
  function WithWeight(s: seq<LangCount>, w: int): seq<LangCount>
  {
    if s == [] then [] else (if s[0].1 == w then [s[0]] else []) + WithWeight(s[1..], w)
  }

  /** Place x after every entry at least as heavy as it. */
  function InsertByWeight(sorted: seq<LangCount>, x: LangCount): (r: seq<LangCount>)
    ensures |r| == |sorted| + 1
  {
    if sorted == [] then [x]
    else if sorted[0].1 >= x.1 then [sorted[0]] + InsertByWeight(sorted[1..], x)
    else [x] + sorted
  }

  /** `sorted(items, key=lambda x: x[1], reverse=True)`, as an insertion sort. */
  function SortByWeight(s: seq<LangCount>): (r: seq<LangCount>)
    ensures |r| == |s|
  {
    if s == [] then [] else InsertByWeight(SortByWeight(s[..|s| - 1]), s[|s| - 1])
  }

  /** `sorted(...)[:3]` */
  function TopLanguages(t: Tally): seq<LangCount>
    requires WellFormed(t)
  {
    var sorted := SortByWeight(Items(t));
    sorted[..if |sorted| < TopCount then |sorted| else TopCount]
  }

  function DigitChar(d: nat): char
    requires d < 10
  {
    ('0' as int + d) as char
  }

  /** Python's `str` of a non-negative int. */
  function NatToString(n: nat): string
  {
    if n < 10 then [DigitChar(n)] else NatToString(n / 10) + [DigitChar(n % 10)]
  }

  /** Python's `str` of an int. */
  function IntToString(i: int): string
  {
    if i < 0 then "-" + NatToString(-i) else NatToString(i)
  }

  ghost predicate AllDigits(s: string)
  {
    forall i :: 0 <= i < |s| ==> '0' <= s[i] <= '9'
  }

  /** The value of a string of decimal digits. */
  function DigitsValue(s: string): nat
    requires AllDigits(s)
  {
    if s == [] then 0 else DigitsValue(s[..|s| - 1]) * 10 + (s[|s| - 1] as int - '0' as int)
  }

  /** `int(s)` for an optional minus sign followed by digits. */
  function ParseInt(s: string): int
    requires s != [] && (if s[0] == '-' then AllDigits(s[1..]) else AllDigits(s))
  {
    if s[0] == '-' then -(DigitsValue(s[1..]) as int) else DigitsValue(s)
  }

  /** `f"{lang} ({count})"` */
  function EntryText(e: LangCount): string
  {
    e.0 + " (" + IntToString(e.1) + ")"
  }

  /** `sep.join(parts)` */
  function Join(parts: seq<string>, sep: string): string
  {
    if parts == [] then ""
    else if |parts| == 1 then parts[0]
    else parts[0] + sep + Join(parts[1..], sep)
  }

  /** The top-languages text of the console and Markdown output. */
  function LanguageRanking(t: Tally): string
    requires WellFormed(t)
  {
    var top := TopLanguages(t);
    if top == [] then "N/A"
    else Join(seq(|top|, i requires 0 <= i < |top| => EntryText(top[i])), ", ")
  }

  // ---------------------------------------------------------------------
  // The sort

  lemma {:induction false} WithWeightAppend(a: seq<LangCount>, b: seq<LangCount>, w: int)
    ensures WithWeight(a + b, w) == WithWeight(a, w) + WithWeight(b, w)
    decreases |a|
  {
    if a == [] {
      assert a + b == b;
    } else {
      var h := if a[0].1 == w then [a[0]] else [];
      assert (a + b)[0] == a[0];
      assert (a + b)[1..] == a[1..] + b;
      WithWeightAppend(a[1..], b, w);
      calc {
        WithWeight(a + b, w);
        h + WithWeight(a[1..] + b, w);
        h + (WithWeight(a[1..], w) + WithWeight(b, w));
        (h + WithWeight(a[1..], w)) + WithWeight(b, w);
        WithWeight(a, w) + WithWeight(b, w);
      }
    }
  }

  lemma {:induction false} WithWeightNone(s: seq<LangCount>, w: int)
    requires forall i :: 0 <= i < |s| ==> s[i].1 < w
    ensures WithWeight(s, w) == []
    decreases |s|
  {
    if s != [] {
      WithWeightNone(s[1..], w);
    }
  }

  lemma {:induction false} InsertByWeightPermutes(sorted: seq<LangCount>, x: LangCount)
    ensures multiset(InsertByWeight(sorted, x)) == multiset(sorted) + multiset{x}
    decreases |sorted|
  {
    if sorted != [] && sorted[0].1 >= x.1 {
      InsertByWeightPermutes(sorted[1..], x);
      assert sorted == [sorted[0]] + sorted[1..];
    }
  }

  /** Inserting into a non-increasing sequence keeps it non-increasing. */
  lemma {:induction false} InsertByWeightOrdered(sorted: seq<LangCount>, x: LangCount)
    requires NonIncreasing(sorted)
    ensures NonIncreasing(InsertByWeight(sorted, x))
    decreases |sorted|
  {
    var r := InsertByWeight(sorted, x);
    if sorted != [] && sorted[0].1 >= x.1 {
      var rest := InsertByWeight(sorted[1..], x);
      InsertByWeightOrdered(sorted[1..], x);
      InsertByWeightPermutes(sorted[1..], x);
      assert r == [sorted[0]] + rest;
      forall i, j | 0 <= i < j < |r| ensures r[i].1 >= r[j].1 {
        if i > 0 {
          assert r[i] == rest[i - 1] && r[j] == rest[j - 1];
        } else {
          assert r[j] == rest[j - 1];
          assert r[j] in multiset(rest);
          if r[j] != x {
            assert r[j] in multiset(sorted[1..]);
            var k :| 0 <= k < |sorted[1..]| && sorted[1..][k] == r[j];
            assert sorted[k + 1] == r[j];
          }
        }
      }
    }
  }

  /** Inserting puts x after every entry of its own weight. */
  lemma {:induction false} InsertByWeightStable(sorted: seq<LangCount>, x: LangCount, w: int)
    requires NonIncreasing(sorted)
    ensures WithWeight(InsertByWeight(sorted, x), w) == WithWeight(sorted, w) + WithWeight([x], w)
    decreases |sorted|
  {
    var r := InsertByWeight(sorted, x);
    if sorted == [] {
      assert r == [x];
    } else if sorted[0].1 >= x.1 {
      var rest := InsertByWeight(sorted[1..], x);
      InsertByWeightStable(sorted[1..], x, w);
      assert sorted == [sorted[0]] + sorted[1..];
      assert r == [sorted[0]] + rest;
      WithWeightAppend([sorted[0]], rest, w);
      WithWeightAppend([sorted[0]], sorted[1..], w);
    } else {
      assert r == [x] + sorted;
      WithWeightAppend([x], sorted, w);
      if x.1 == w {
        WithWeightNone(sorted, w);
      }
    }
  }

  /** The sort is the stable descending sort: non-increasing by weight, a
      permutation of its input, and for every weight the entries of that
      weight come out in their input order. */
  lemma {:induction false} SortByWeightSpec(s: seq<LangCount>)
    ensures NonIncreasing(SortByWeight(s))
    ensures multiset(SortByWeight(s)) == multiset(s)
    ensures forall w :: WithWeight(SortByWeight(s), w) == WithWeight(s, w)
  {
    if s != [] {
      var n := |s| - 1;
      SortByWeightSpec(s[..n]);
      InsertByWeightOrdered(SortByWeight(s[..n]), s[n]);
      InsertByWeightPermutes(SortByWeight(s[..n]), s[n]);
      assert s == s[..n] + [s[n]];
      forall w ensures WithWeight(SortByWeight(s), w) == WithWeight(s, w) {
        InsertByWeightStable(SortByWeight(s[..n]), s[n], w);
        WithWeightAppend(s[..n], [s[n]], w);
      }
    }
  }

  // ---------------------------------------------------------------------
  // The top three

  lemma {:induction false} WithWeightPrefix(s: seq<LangCount>, m: nat, w: int)
    requires m <= |s|
    ensures WithWeight(s[..m], w) <= WithWeight(s, w)
  {
    assert s == s[..m] + s[m..];
    WithWeightAppend(s[..m], s[m..], w);
  }

  /** The ranking shows min(3, n) of the n languages, heaviest first, and
      among equal weights the languages shown are the earliest in key order. */
  lemma {:induction false} TopLanguagesSpec(t: Tally)
    requires WellFormed(t)
    ensures |TopLanguages(t)| == if |t.keys| < TopCount then |t.keys| else TopCount
    ensures NonIncreasing(TopLanguages(t))
    ensures forall w :: WithWeight(TopLanguages(t), w) <= WithWeight(Items(t), w)
  {
    var items := Items(t);
    var sorted := SortByWeight(items);
    var top := TopLanguages(t);
    SortByWeightSpec(items);
    assert top == sorted[..|top|];
    forall w ensures WithWeight(top, w) <= WithWeight(items, w) {
      WithWeightPrefix(sorted, |top|, w);
    }
  }

  /** Each shown entry is a (language, weight) pair of the breakdown, and
      every language left out weighs no more than any language shown. */
  lemma {:induction false} TopLanguagesChosen(t: Tally)
    requires WellFormed(t)
    ensures forall e :: e in TopLanguages(t) ==> e in Items(t)
    ensures forall e, i :: e in Items(t) && e !in TopLanguages(t) && 0 <= i < |TopLanguages(t)| ==>
              e.1 <= TopLanguages(t)[i].1
  {
    var items := Items(t);
    var sorted := SortByWeight(items);
    var top := TopLanguages(t);
    var m := |top|;
    SortByWeightSpec(items);
    assert top == sorted[..m];
    forall e | e in top ensures e in items {
      var p :| 0 <= p < m && top[p] == e;
      assert sorted[p] == e;
      assert e in multiset(sorted);
    }
    forall e, i | e in items && e !in top && 0 <= i < m ensures e.1 <= top[i].1 {
      assert e in multiset(items);
      var p :| 0 <= p < |sorted| && sorted[p] == e;
      assert p >= m;
      assert sorted[i] == top[i];
      assert i < p;
    }
  }

  lemma {:induction false} FirstOfWeight(s: seq<LangCount>, w: int, i: nat) returns (q: nat)
    requires i < |s| && s[i].1 == w
    ensures q <= i && s[q].1 == w
    ensures forall j :: 0 <= j < q ==> s[j].1 != w
  {
    if exists j :: 0 <= j < i && s[j].1 == w {
      var j :| 0 <= j < i && s[j].1 == w;
      q := FirstOfWeight(s, w, j);
    } else {
      q := i;
    }
  }

  lemma {:induction false} WithWeightHead(s: seq<LangCount>, w: int, q: nat)
    requires q < |s| && s[q].1 == w
    requires forall j :: 0 <= j < q ==> s[j].1 != w
    ensures WithWeight(s, w) != [] && WithWeight(s, w)[0] == s[q]
    decreases q
  {
    if q > 0 {
      WithWeightHead(s[1..], w, q - 1);
    }
  }

  /** The first language of the ranking is the most used language: both
      pick the first key of maximal weight. */
  lemma TopIsMostUsed(t: Tally)
    requires WellFormed(t) && t.keys != []
    ensures TopLanguages(t) != [] && TopLanguages(t)[0].0 == MostUsed(t)
  {
    var items := Items(t);
    assert |items| == |t.keys|;
    assert forall i :: 0 <= i < |items| ==> items[i] == (t.keys[i], t.counts[t.keys[i]]);
    var p := SortedHeadIsFirstMaximal(items);
    MostUsedIsFirstMaximal(t, p);
  }

  /** The heaviest entry the stable sort puts first is the first entry of
      maximal weight in the input. */
  lemma {:induction false} SortedHeadIsFirstMaximal(items: seq<LangCount>) returns (p: nat)
    requires items != []
    ensures p < |items| && SortByWeight(items)[0] == items[p]
    ensures forall i :: 0 <= i < |items| ==> items[i].1 <= items[p].1
    ensures forall i :: 0 <= i < p ==> items[i].1 < items[p].1
  {
    var sorted := SortByWeight(items);
    SortByWeightSpec(items);
    assert sorted[0] in multiset(items);
    var k :| 0 <= k < |items| && items[k] == sorted[0];
    var w := sorted[0].1;
    forall i | 0 <= i < |items| ensures items[i].1 <= w {
      assert items[i] in multiset(sorted);
      var m :| 0 <= m < |sorted| && sorted[m] == items[i];
    }
    p := FirstOfWeight(items, w, k);
    WithWeightHead(items, w, p);
    WithWeightHead(sorted, w, 0);
  }

  // ---------------------------------------------------------------------
  // The rendered text

  lemma {:induction false} NatToStringDigits(n: nat)
    ensures NatToString(n) != [] && AllDigits(NatToString(n))
    ensures DigitsValue(NatToString(n)) == n
  {
    if n >= 10 {
      NatToStringDigits(n / 10);
      var s := NatToString(n);
      assert s[..|s| - 1] == NatToString(n / 10);
    }
  }

  /** The printed count reads back as the weight. */
  lemma IntToStringRoundTrip(i: int)
    ensures IntToString(i) != [] && (if IntToString(i)[0] == '-' then AllDigits(IntToString(i)[1..]) else AllDigits(IntToString(i)))
    ensures ParseInt(IntToString(i)) == i
  {
    if i < 0 {
      NatToStringDigits(-i);
      assert IntToString(i)[1..] == NatToString(-i);
    } else {
      NatToStringDigits(i);
    }
  }

  lemma {:induction false} JoinStartsWithFirst(parts: seq<string>, sep: string)
    requires parts != []
    ensures parts[0] <= Join(parts, sep)
  {
  }

  /** The ranking text is "N/A" exactly when the breakdown is empty. */
  lemma RankingNotAvailable(t: Tally)
    requires WellFormed(t)
    ensures LanguageRanking(t) == "N/A" <==> t.keys == []
  {
    if t.keys != [] {
      TopLanguagesSpec(t);
      var top := TopLanguages(t);
      var parts := seq(|top|, i requires 0 <= i < |top| => EntryText(top[i]));
      JoinStartsWithFirst(parts, ", ");
      var first := parts[0];
      assert first[|top[0].0| + 1] == '(';
      var text := LanguageRanking(t);
      assert text[|top[0].0| + 1] == '(';
      assert "N/A"[0] == 'N' && "N/A"[1] == '/' && "N/A"[2] == 'A';
    }
  }

  /** A non-empty ranking text starts with the most used language followed by
      its count in parentheses. */
  lemma {:induction false} RankingStartsWithMostUsed(t: Tally)
    requires WellFormed(t) && t.keys != []
    ensures MostUsed(t) + " (" <= LanguageRanking(t)
  {
    TopIsMostUsed(t);
    var top := TopLanguages(t);
    var parts := seq(|top|, i requires 0 <= i < |top| => EntryText(top[i]));
    JoinStartsWithFirst(parts, ", ");
    var head := MostUsed(t) + " (";
    assert parts[0] == head + IntToString(top[0].1) + ")";
    assert head <= parts[0];
  }
}
