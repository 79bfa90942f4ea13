/** The language counter of the analyzer: an insertion-ordered map from a
    language name to its accumulated weight (bytes of code, or a repository
    count on the fallback path), as Python's `collections.Counter` keeps it,
    and the "most common" query the summary asks of it. */
module LanguageTally {

  /** One (language, weight) pair, as `dict.items()` yields it. */
  type LangCount = (string, int)

  /** A snapshot of the counter: the keys in insertion order and their weights. */
  datatype Tally = Tally(keys: seq<string>, counts: map<string, int>)

  const Empty := Tally([], map[])

  /** The sentinel the summary reports when no language was counted. */
  const Unknown := "Unknown"

  ghost predicate NoDuplicates(s: seq<string>)
  {
    forall i, j :: 0 <= i < j < |s| ==> s[i] != s[j]
  }

  /** A dict's key order lists each key once, and exactly its keys. */
  ghost predicate WellFormed(t: Tally)
  {
    && NoDuplicates(t.keys)
    && (forall k :: k in t.keys <==> k in t.counts)
  }

  /** `counter[key] += amount`: a missing key reads as 0 and is appended to the
      key order; a present key keeps its place. */
  function Bump(t: Tally, key: string, amount: int): (r: Tally)
    requires WellFormed(t)
    ensures WellFormed(r)
    ensures key in r.counts && r.counts[key] == (if key in t.counts then t.counts[key] else 0) + amount
    ensures r.keys == if key in t.counts then t.keys else t.keys + [key]
  {
    if key in t.counts then
      Tally(t.keys, t.counts[key := t.counts[key] + amount])
    else
      Tally(t.keys + [key], t.counts[key := amount])
  }

  /** The counter after `counter[l] += v` for every (l, v) of incs, in order,
      starting from an empty counter. */
  function Accumulate(incs: seq<LangCount>): (r: Tally)
    ensures WellFormed(r)
  {
    if incs == [] then Empty
    else
      var last := incs[|incs| - 1];
      Bump(Accumulate(incs[..|incs| - 1]), last.0, last.1)
  }

  /** `counter[key] += amount` leaves every other language's weight alone. */
  lemma {:induction false} BumpOthers(t: Tally, key: string, amount: int, lang: string)
    requires WellFormed(t) && lang != key
    ensures WeightOf(Bump(t, key, amount), lang) == WeightOf(t, lang)
  {
  }

  /** Accumulating one more pair is one more `+=`. */
  lemma {:induction false} AccumulateSnoc(incs: seq<LangCount>, x: LangCount)
    ensures Accumulate(incs + [x]) == Bump(Accumulate(incs), x.0, x.1)
  {
    assert (incs + [x])[..|incs|] == incs;
  }

  /** `counter[lang]`: a missing language reads as 0. */
  function WeightOf(t: Tally, lang: string): int
  {
    if lang in t.counts then t.counts[lang] else 0
  }

  /** Whether the language lang occurs in incs. */
  predicate Mentions(incs: seq<LangCount>, lang: string)
  {
    exists i :: 0 <= i < |incs| && incs[i].0 == lang
  }

  /** The total of all the weights that incs carries for lang. */
  function SumFor(incs: seq<LangCount>, lang: string): int
  {
    if incs == [] then 0
    else
      var last := incs[|incs| - 1];
      SumFor(incs[..|incs| - 1], lang) + (if last.0 == lang then last.1 else 0)
  }

  /** The position of the first occurrence of lang in incs. */
  function FirstAt(incs: seq<LangCount>, lang: string): (p: nat)
    requires Mentions(incs, lang)
    ensures p < |incs| && incs[p].0 == lang
    ensures forall i :: 0 <= i < p ==> incs[i].0 != lang
  {
    var n := |incs| - 1;
    if Mentions(incs[..n], lang) then FirstAt(incs[..n], lang) else n
  }

  lemma {:induction false} SumForAppend(a: seq<LangCount>, b: seq<LangCount>, lang: string)
    ensures SumFor(a + b, lang) == SumFor(a, lang) + SumFor(b, lang)
    decreases |b|
  {
    if b == [] {
      assert a + b == a;
    } else {
      var n := |b| - 1;
      assert (a + b)[..|a + b| - 1] == a + b[..n];
      SumForAppend(a, b[..n], lang);
    }
  }

  /** A language that does not occur carries no weight. */
  lemma {:induction false} SumForUnmentioned(incs: seq<LangCount>, lang: string)
    requires !Mentions(incs, lang)
    ensures SumFor(incs, lang) == 0
  {
    if incs != [] {
      var n := |incs| - 1;
      assert !Mentions(incs[..n], lang) by {
        forall i | 0 <= i < n ensures incs[..n][i].0 != lang {
          assert incs[..n][i] == incs[i];
        }
      }
      SumForUnmentioned(incs[..n], lang);
    }
  }

  lemma {:induction false} MentionsAppend(prefix: seq<LangCount>, x: LangCount, lang: string)
    ensures Mentions(prefix + [x], lang) <==> Mentions(prefix, lang) || x.0 == lang
  {
    var incs := prefix + [x];
    if Mentions(prefix, lang) {
      var i :| 0 <= i < |prefix| && prefix[i].0 == lang;
      assert incs[i] == prefix[i];
    }
    if Mentions(incs, lang) && x.0 != lang {
      var i :| 0 <= i < |incs| && incs[i].0 == lang;
      assert prefix[i] == incs[i];
    }
    assert incs[|prefix|] == x;
  }

  /** What the counter holds for one language after accumulating incs. */
  lemma {:induction false} AccumulateAt(incs: seq<LangCount>, lang: string)
    ensures lang in Accumulate(incs).counts <==> Mentions(incs, lang)
    ensures lang in Accumulate(incs).counts ==> Accumulate(incs).counts[lang] == SumFor(incs, lang)
  {
    if incs != [] {
      var n := |incs| - 1;
      var prefix, last := incs[..n], incs[n];
      assert incs == prefix + [last];
      AccumulateAt(prefix, lang);
      MentionsAppend(prefix, last, lang);
      if !Mentions(prefix, lang) {
        SumForUnmentioned(prefix, lang);
      }
    }
  }

  /** `counter[lang]` after accumulating incs is the sum of lang's weights,
      0 for a language that never occurred. */
  lemma {:induction false} WeightOfAccumulate(incs: seq<LangCount>, lang: string)
    ensures WeightOf(Accumulate(incs), lang) == SumFor(incs, lang)
  {
    AccumulateAt(incs, lang);
    if !Mentions(incs, lang) {
      SumForUnmentioned(incs, lang);
    }
  }

  lemma {:induction false} MentionsConcat(a: seq<LangCount>, b: seq<LangCount>, lang: string)
    ensures Mentions(a + b, lang) <==> Mentions(a, lang) || Mentions(b, lang)
  {
    if Mentions(a, lang) {
      var i :| 0 <= i < |a| && a[i].0 == lang;
      assert (a + b)[i] == a[i];
    }
    if Mentions(b, lang) {
      var i :| 0 <= i < |b| && b[i].0 == lang;
      assert (a + b)[|a| + i] == b[i];
    }
    if Mentions(a + b, lang) {
      var i :| 0 <= i < |a + b| && (a + b)[i].0 == lang;
      if i < |a| {
        assert a[i] == (a + b)[i];
      } else {
        assert b[i - |a|] == (a + b)[i];
      }
    }
  }

  /** The counter holds exactly the languages that occur in incs, each with
      the sum of the weights incs carries for it. */
  lemma {:induction false} AccumulateCounts(incs: seq<LangCount>)
    ensures forall lang :: lang in Accumulate(incs).counts <==> Mentions(incs, lang)
    ensures forall lang :: lang in Accumulate(incs).counts ==>
              Accumulate(incs).counts[lang] == SumFor(incs, lang)
  {
    forall lang
      ensures lang in Accumulate(incs).counts <==> Mentions(incs, lang)
      ensures lang in Accumulate(incs).counts ==> Accumulate(incs).counts[lang] == SumFor(incs, lang)
    {
      AccumulateAt(incs, lang);
    }
  }

  lemma {:induction false} FirstAtAppend(prefix: seq<LangCount>, x: LangCount, lang: string)
    requires Mentions(prefix, lang) || x.0 == lang
    ensures Mentions(prefix + [x], lang)
    ensures FirstAt(prefix + [x], lang) == if Mentions(prefix, lang) then FirstAt(prefix, lang) else |prefix|
  {
    MentionsAppend(prefix, x, lang);
    assert (prefix + [x])[..|prefix|] == prefix;
  }

  /** Of two keys of the counter, the earlier one occurs first in incs. */
  lemma {:induction false} AccumulateOrderAt(incs: seq<LangCount>, i: nat, j: nat)
    requires i < j < |Accumulate(incs).keys|
    ensures Mentions(incs, Accumulate(incs).keys[i]) && Mentions(incs, Accumulate(incs).keys[j])
    ensures FirstAt(incs, Accumulate(incs).keys[i]) < FirstAt(incs, Accumulate(incs).keys[j])
  {
    var n := |incs| - 1;
    var prefix, last := incs[..n], incs[n];
    assert incs == prefix + [last];
    var before, after := Accumulate(prefix), Accumulate(incs);
    var a, b := after.keys[i], after.keys[j];
    assert a == before.keys[i] && a in before.keys;
    AccumulateAt(prefix, a);
    FirstAtAppend(prefix, last, a);
    AccumulateAt(prefix, b);
    FirstAtAppend(prefix, last, b);
    if j < |before.keys| {
      AccumulateOrderAt(prefix, i, j);
    } else {
      assert b == last.0 && b !in before.counts;
      assert FirstAt(prefix, a) < |prefix|;
    }
  }

  /** The counter keys its languages in order of first occurrence in incs. */
  lemma {:induction false} AccumulateOrder(incs: seq<LangCount>)
    ensures forall k :: k in Accumulate(incs).keys ==> Mentions(incs, k)
    ensures forall i, j :: 0 <= i < j < |Accumulate(incs).keys| ==>
              FirstAt(incs, Accumulate(incs).keys[i]) < FirstAt(incs, Accumulate(incs).keys[j])
  {
    AccumulateCounts(incs);
    forall i, j | 0 <= i < j < |Accumulate(incs).keys|
      ensures FirstAt(incs, Accumulate(incs).keys[i]) < FirstAt(incs, Accumulate(incs).keys[j])
    {
      AccumulateOrderAt(incs, i, j);
    }
  }

  /** The counter is empty exactly when nothing was accumulated. */
  lemma {:induction false} AccumulateEmpty(incs: seq<LangCount>)
    ensures Accumulate(incs).keys == [] <==> incs == []
  {
    if incs != [] {
      AccumulateCounts(incs);
      assert Mentions(incs, incs[0].0);
      assert incs[0].0 in Accumulate(incs).keys;
    }
  }

  /** The index of the first key of maximal weight: the scan of Python's
      `max(items, key=weight)`, which replaces its candidate only on a
      strictly greater weight. */
  function ArgMax(keys: seq<string>, counts: map<string, int>): (m: nat)
    requires |keys| > 0
    requires forall k :: k in keys ==> k in counts
    ensures m < |keys|
    ensures forall i :: 0 <= i < |keys| ==> counts[keys[i]] <= counts[keys[m]]
    ensures forall i :: 0 <= i < m ==> counts[keys[i]] < counts[keys[m]]
  {
    var n := |keys| - 1;
    if n == 0 then 0
    else
      var m := ArgMax(keys[..n], counts);
      if counts[keys[n]] > counts[keys[m]] then n else m
  }

  /** `counter.most_common(1)[0][0] if counter else 'Unknown'`. */
  function MostUsed(t: Tally): (r: string)
    requires WellFormed(t)
    ensures t.keys == [] ==> r == Unknown
    ensures t.keys != [] ==> r in t.counts && forall k :: k in t.counts ==> t.counts[k] <= t.counts[r]
  {
    if t.keys == [] then Unknown
    else
      var m := ArgMax(t.keys, t.counts);
      assert forall k :: k in t.counts ==> exists i :: 0 <= i < |t.keys| && t.keys[i] == k;
      t.keys[m]
  }

  /** Ties go to the key inserted first: the most used language is the unique
      key of maximal weight that no earlier key matches. */
  lemma {:induction false} MostUsedIsFirstMaximal(t: Tally, p: nat)
    requires WellFormed(t)
    requires p < |t.keys|
    requires forall i :: 0 <= i < |t.keys| ==> t.counts[t.keys[i]] <= t.counts[t.keys[p]]
    requires forall i :: 0 <= i < p ==> t.counts[t.keys[i]] < t.counts[t.keys[p]]
    ensures MostUsed(t) == t.keys[p]
  {
    var m := ArgMax(t.keys, t.counts);
    assert t.keys[m] in t.keys && t.keys[p] in t.keys;
    if m < p {
      assert false;
    } else if p < m {
      assert false;
    }
  }

  /** Two updates for two different languages leave both, in that order. */
  lemma {:induction false} TwoLanguagesTally(a: string, wa: int, b: string, wb: int)
    requires a != b
    ensures Accumulate([(a, wa), (b, wb)]) == Tally([a, b], map[a := wa, b := wb])
  {
    var first := Tally([a], map[a := wa]);
    AccumulateSnoc([], (a, wa));
    assert [] + [(a, wa)] == [(a, wa)];
    assert Accumulate([(a, wa)]) == Bump(Empty, a, wa) == first;
    AccumulateSnoc([(a, wa)], (b, wb));
    assert [(a, wa)] + [(b, wb)] == [(a, wa), (b, wb)];
    assert b !in first.counts;
    assert [a] + [b] == [a, b];
    assert Bump(first, b, wb) == Tally([a] + [b], first.counts[b := wb]);
  }

  /** Of two languages, the first inserted is the most used unless the second
      is strictly heavier. */
  lemma {:induction false} TwoLanguagesMostUsed(a: string, wa: int, b: string, wb: int)
    requires a != b && wa >= wb
    ensures MostUsed(Tally([a, b], map[a := wa, b := wb])) == a
  {
    var t := Tally([a, b], map[a := wa, b := wb]);
    assert t.counts[t.keys[0]] == wa && t.counts[t.keys[1]] == wb;
    MostUsedIsFirstMaximal(t, 0);
  }

  /** The mutable counter the aggregation loop updates in place. */
  class Counter {
    var keys: seq<string>
    var counts: map<string, int>

    ghost predicate Valid()
      reads this
    {
      WellFormed(Tally(keys, counts))
    }

    /** `dict(counter)`: the current contents as a value. */
    function Snapshot(): (t: Tally)
      reads this
      ensures t.keys == keys && t.counts == counts
    {
      Tally(keys, counts)
    }

    constructor ()
      ensures Valid() && Snapshot() == Empty
    {
      keys := [];
      counts := map[];
    }

    /** `counter[key] += amount`. */
    method Add(key: string, amount: int)
      requires Valid()
      modifies this
      ensures Valid()
      ensures Snapshot() == Bump(old(Snapshot()), key, amount)
    {
      if key in counts {
        counts := counts[key := counts[key] + amount];
      } else {
        keys := keys + [key];
        counts := counts[key := amount];
      }
    }
  }
}
