# GitHub profile analyzer: repository aggregation and language ranking

This project is a Dafny model of the core of a command-line GitHub profile analyzer.
The core is the aggregation step `summarize_repos` together with the "Top languages" line that two renderers print.
The aggregation step walks a user's repository listing and adds up stars and forks.
It builds a language breakdown by asking a per-repository language endpoint for each repository.
When that lookup raises or returns an empty map, it falls back to counting the repository's declared language once.
The most used language is the heaviest key of that breakdown.
The ranking line shows at most three languages, heaviest first, as `lang (count)` joined by `, `.
When the breakdown is empty it shows `N/A`.

The model has four modules:

- `Sums` (sums.dfy) holds integer sums over a sequence of records.
  They are accumulated front to back, as the loop does.
  The module proves that such a sum does not depend on the order of the records.
- `LanguageTally` (tally.dfy) holds the language counter, which is an insertion-ordered dictionary.
  - `Tally` is a value: the keys in insertion order, plus a map from key to weight.
  - `Counter` is the class that the loop updates in place.
  - `Bump` states what `counter[key] += amount` does: a missing key reads as 0 and is appended to the key order.
  - `Accumulate` folds `Bump` over a sequence of (language, weight) increments.
  - `MostUsed` is `most_common(1)`. Python computes it as `max` over the items, which keeps the first key of maximal weight.
- `Summarize` (summarize.dfy) holds the repository record, the detail record, the summary, and the `SummarizeRepos` method.
  - The method's loop updates a `Counter` and is proved against the specification functions `TotalStars`, `TotalForks`, `Details` and `Breakdown`.
  - The language endpoint is a parameter, `fetch: (username, name) -> LangFetch`. A lookup either raises or returns a sequence of (language, bytes) pairs.
    It is one fixed answer per repository, so a repository's answer cannot depend on when it is asked.
- `Ranking` (ranking.dfy) holds the top-three ranking.
  - Python's `sorted(..., key=weight, reverse=True)` is stable. It is modelled as an insertion sort (`SortByWeight`).
  - That sort is characterised as non-increasing and a permutation of its input.
  - It also keeps the original order among entries of equal weight.
  - Integers are rendered in decimal, and a lemma shows the rendered count reads back as the weight.

A repository record keeps the shapes of the API's JSON that the code can tell apart:

- A count is `Some(n)`, or `None` when the key is missing (read as 0).
- The language is `Some(s)`, or `None` when it is missing or null.
  An empty string is also counted and shown as `Unknown`, because Python's `or` treats it as false.
- A description or URL can be missing (read as `''`), null (kept as `None`) or present.

## Model

| member | source | states |
|---|---|---|
| Summarize.SummarizeRepos | main.py:13-55 | Total stars and total forks are the sums over the listing, with a missing count read as 0. There is one detail record per repository, in listing order. The breakdown is the counter built from every repository's increments in order. The most used language is the counter's first key of maximal weight, or Unknown when the counter is empty. |
| Summarize.CountLanguages | main.py:29-39 | Handles one repository's try/except. The counter afterwards equals the counter before, with the repository's increments accumulated. That means every entry of a non-empty fetched map, or otherwise +1 for the declared language. |
| Summarize.DetailsInOrder | main.py:40-47 | The detail list has one record per repository, in listing order. Each record carries the repository's name, its stars and forks (0 when missing), its declared language, and its description and URL. |
| Summarize.StarsOf | main.py:23 | A repository's stars, with a missing count read as 0. Its meaning over the listing is stated by SummarizeRepos (total stars) and OrderIndependent. |
| Summarize.ForksOf | main.py:24 | A repository's forks, with a missing count read as 0. Its meaning over the listing is stated by SummarizeRepos (total forks) and OrderIndependent. |
| Summarize.Detail | main.py:40-47 | The detail record of one repository: its name, stars, forks and declared language. A missing description or URL reads as the empty string, and a null one stays None. DetailsInOrder states that the list holds one such record per repository, in listing order. |
| Summarize.DeclaredLanguage | main.py:25 | The result is never empty. It is the declared language when that is present and non-empty, and Unknown otherwise. |
| Summarize.RepoIncrements | main.py:29-39 | A repository always contributes at least one increment. A non-empty fetched map contributes exactly its entries, in order. A raised lookup or an empty map contributes exactly (declared language, 1). |
| Summarize.BreakdownWeight | main.py:22-39 | A language is a key of the breakdown iff some repository puts it there. Its weight is the sum, over the repositories, of what each one adds to it. |
| Summarize.IncrementsMention | main.py:22-39 | A language occurs among the loop's increments iff some repository contributes it. |
| Summarize.IncrementsSum | main.py:22-39 | The total weight of a language among the increments is the per-repository sum. |
| Summarize.FallbackCountsOnce | main.py:34-39 | A repository whose lookup raises or returns an empty map adds exactly 1 to its declared language and changes no other weight. The declared language is appended to the key order only if it was new. |
| Summarize.FetchedMapMerged | main.py:31-33 | A repository with a non-empty fetched map adds to every language the total that the map gives it. The declared language gains nothing unless the map names it. |
| Summarize.FallbackWeight | main.py:34-39 | On the fallback path, a repository adds 1 to its declared language and 0 to every other language. |
| Summarize.FailureIsLocal | main.py:29-39 | For the same lookup answers at every other repository, making one repository's lookup raise changes the final breakdown only by that repository's own contribution. Its fetched weights are replaced by +1 for its declared language. Every other repository is aggregated as before. |
| Summarize.OrderIndependent | main.py:22-39 | For the same lookup answers, reordering the listing leaves total stars, total forks and every language weight unchanged. |
| Summarize.EmptyBreakdownIffNoRepos | main.py:48 | The breakdown is empty iff the listing is empty, because every repository adds at least one key. With no repositories the most used language is Unknown. |
| Summarize.MixedLookupScenario | main.py:22-48 | One repository fetched as {Go: 100} followed by a Python repository whose lookup raises gives the breakdown {Go: 100, Python: 1}, in that order. The most used language is Go. |
| Summarize.UnknownFromNonEmptyListing | main.py:25-48 | A single repository with no declared language whose lookup raises gives a non-empty breakdown whose only key is Unknown. The most used language is then Unknown. |
| LanguageTally.Bump | main.py:33-39 | `counter[key] += amount` gives the key its old weight (0 if missing) plus the amount. A new key is appended to the key order and an existing key keeps its place. The counter stays well formed: no duplicate keys, and keys and weights agree. |
| LanguageTally.Accumulate | main.py:20-39 | Folding the increments into an empty counter gives a well-formed counter. |
| LanguageTally.AccumulateAt | main.py:31-39 | A language is a key iff it occurs among the increments. Its weight is the sum of the weights they carry for it. |
| LanguageTally.AccumulateCounts | main.py:31-39 | The same two facts as AccumulateAt, for every language at once. |
| LanguageTally.WeightOfAccumulate | main.py:31-39 | Reading the counter gives the sum of the increments' weights for that language, with a missing key read as 0. |
| LanguageTally.AccumulateOrder | main.py:54 | Every key occurs among the increments, and the keys appear in order of first occurrence. |
| LanguageTally.AccumulateOrderAt | main.py:54 | Of two keys of the counter, the earlier one first occurs earlier among the increments. |
| LanguageTally.AccumulateEmpty | main.py:48 | The counter is empty iff there were no increments. |
| LanguageTally.ArgMax | main.py:48 | The chosen key has maximal weight, and every key before it weighs strictly less. |
| LanguageTally.MostUsed | main.py:48 | For an empty counter the result is Unknown. Otherwise it is a key whose weight no other key exceeds. |
| LanguageTally.MostUsedIsFirstMaximal | main.py:48 | Ties go to the earliest inserted key. The most used language is exactly the first key of maximal weight. |
| LanguageTally.TwoLanguagesTally | main.py:31-39 | Two updates for two different languages leave both keys, in update order, each with its own weight. |
| LanguageTally.TwoLanguagesMostUsed | main.py:48 | Of two languages, the first inserted is reported unless the second is strictly heavier. |
| LanguageTally.Counter.constructor | main.py:20 | A new counter is valid and empty. |
| LanguageTally.Counter.Add | main.py:33 | The counter's new contents are `Bump` of its old contents, and the counter stays valid. |
| Ranking.ItemsAreEntries | main.py:78 | `items()` of the breakdown holds exactly its (language, weight) entries: a pair is an item iff its language is a key and its weight is that key's weight. No language occurs twice. |
| Ranking.SortByWeight | main.py:78 | `sorted(items, key=weight, reverse=True)`, as an insertion sort. SortByWeightSpec states that it is non-increasing, a permutation of its input, and stable. |
| Ranking.TopLanguages | main.py:78 | `sorted(...)[:3]`. TopLanguagesSpec and TopLanguagesChosen state its size, its order and that it keeps the heaviest entries. |
| Ranking.InsertByWeightPermutes | main.py:78 | Inserting adds exactly the one entry, as a multiset. |
| Ranking.InsertByWeightOrdered | main.py:78 | Inserting into a non-increasing sequence keeps it non-increasing. |
| Ranking.InsertByWeightStable | main.py:78 | Among entries of one weight, the inserted entry comes after those already present. |
| Ranking.SortByWeightSpec | main.py:78 | The sort is non-increasing by weight and is a permutation of its input. For every weight, the entries of that weight keep their original relative order, which is stability. |
| Ranking.TopLanguagesSpec | main.py:78 | The ranking holds min(3, n) of the n languages, in non-increasing order. For every weight, the shown entries of that weight are the first ones of that weight in key order. |
| Ranking.TopLanguagesChosen | main.py:78 | Every shown entry is an item of the breakdown. No item that is left out weighs more than any shown entry. |
| Ranking.TopIsMostUsed | main.py:75-78 | For a non-empty breakdown, the first language of the ranking is the reported most used language. |
| Ranking.IntToStringRoundTrip | main.py:79 | A rendered count is an optional minus sign followed by decimal digits, and it reads back as the weight. |
| Ranking.IntToString | main.py:79 | `str` of a count. IntToStringRoundTrip states that it reads back as the count. |
| Ranking.EntryText | main.py:79 | `f"{lang} ({count})"` for one entry. RankingStartsWithMostUsed states the shape of the first entry in the text. |
| Ranking.LanguageRanking | main.py:79 | The ranking text: `N/A` for an empty breakdown, otherwise the top entries joined by `, `. RankingNotAvailable and RankingStartsWithMostUsed state its properties. |
| Ranking.RankingNotAvailable | main.py:79 | The ranking text is `N/A` iff the breakdown is empty. |
| Ranking.RankingStartsWithMostUsed | main.py:79 | A non-empty breakdown's ranking text starts with the most used language followed by ` (`. |
| Sums.SumOfPermutation | main.py:26-27 | A running total does not depend on the order of the records summed. |
| Sums.SumOfExcept | main.py:26-39 | Changing one record's summand changes the total by that record's difference alone. |

The renderers at main.py:77-79 (console) and main.py:123-125 (Markdown) compute the same ranking text.
Both are modelled by the one function `Ranking.LanguageRanking`.

Three facts about the code that a reader might not expect:

- `most_common(1)` accepts a tie and returns the earliest inserted of the tied keys (`MostUsedIsFirstMaximal`).
- Every repository adds at least one key, so the breakdown is empty only for an empty listing (`EmptyBreakdownIffNoRepos`). The sentinel Unknown is also an ordinary key, and a non-empty listing can report it as its most used language (`UnknownFromNonEmptyListing`).
- The lookup falls back to the declared language not only when it raises but also when it returns an empty map (`RepoIncrements`). Separately, an empty declared language is counted and displayed as Unknown (`DeclaredLanguage`), whichever path the repository takes.

## Left out

- The HTTP client (analyzer/fetcher.py) is not part of this model. The language endpoint is the `fetch` parameter, and "raises" covers every exception it can throw.
- Profile and repository listing calls, pagination and authentication belong to that client and are left out for the same reason.
- OrderIndependent / FailureIsLocal: the lookup is a fixed function of (username, repository name). The model cannot express answers that depend on time or on call order. In the program, a rate-limit 403 partway through the listing makes every later lookup raise and fall back, so which repositories fall back depends on their position. Both lemmas compare runs that get the same answers; they say nothing about runs whose answers differ because of when the lookups were made.
- The verbose warning print at main.py:37-38 is console output only and does not change the result.
- The colour and layout of `print_console` and `export_markdown` are left out. So are the JSON and CSV exporters, `main()` and its argument parsing. They are output formatting and I/O. Only the ranking text is modelled.
- SummarizeRepos: a count key that is present with a null value makes the Python addition raise TypeError. The model has no such case: a count is either an integer or missing.
- SummarizeRepos: a repository without a `name` key makes Python raise KeyError, outside the try block. The model's repository always has a name.
- CountLanguages: a fetched response that is not a dictionary, or has non-integer values, can raise partway through the merge. The entries added before the failure then stay in the counter, and the fallback +1 is added as well. The model's `Fetched` response is always a well-typed sequence of pairs.
- A fetched response is a JSON object, so its keys are distinct. The model does not require that; duplicate pairs are simply summed.
- Integer sizes: Python integers are unbounded, and so are the model's.
