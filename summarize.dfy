/** The aggregation step of the profile analyzer (`summarize_repos` in
    main.py): one pass over the user's repositories that totals stars and
    forks, builds the language breakdown, copies a detail record per
    repository and picks the most used language. */
module Summarize {
  import opened Sums
  import opened LanguageTally

  datatype Option<T> = None | Some(value: T)

  /** A field of a repository record as the API's JSON has it: missing, an
      explicit null, or a value. */
  datatype JsonField<T> = Absent | Null | Present(value: T)

  /** One repository record of the listing. A missing count is None; the
      language is None when missing or null. */
  datatype Repo = Repo(
    name: string,
    stargazersCount: Option<int>,
    forksCount: Option<int>,
    language: Option<string>,
    description: JsonField<string>,
    htmlUrl: JsonField<string>)

  /** The per-repository record of the summary; None stands for Python's None. */
  datatype RepoDetail = RepoDetail(
    name: string,
    stars: int,
    forks: int,
    language: string,
    description: Option<string>,
    url: Option<string>)

  /** What one call to the per-repository language endpoint gives: an
      exception, or the language map (bytes per language, in response order). */
  datatype LangFetch = Raised | Fetched(langs: seq<LangCount>)

  /** The language endpoint, as an oracle of (username, repository name). */
  type Fetcher = (string, string) -> LangFetch

  datatype Summary = Summary(
    totalStars: int,
    totalForks: int,
    mostUsedLanguage: string,
    repoDetails: seq<RepoDetail>,
    languageBreakdown: Tally)

  /** `repo.get('stargazers_count', 0)` */
  function StarsOf(r: Repo): int
  {
    if r.stargazersCount.Some? then r.stargazersCount.value else 0
  }

  /** `repo.get('forks_count', 0)` */
  function ForksOf(r: Repo): int
  {
    if r.forksCount.Some? then r.forksCount.value else 0
  }

  /** `repo.get('language') or 'Unknown'`: a missing, null or empty language
      reads as the sentinel. */
  function DeclaredLanguage(r: Repo): (lang: string)
    ensures lang != ""
    ensures r.language.Some? && r.language.value != "" ==> lang == r.language.value
    ensures r.language.None? || r.language.value == "" ==> lang == Unknown
  {
    if r.language.Some? && r.language.value != "" then r.language.value else Unknown
  }

  /** `repo.get(key, '')` for a text field. */
  function TextOr(f: JsonField<string>, default: string): Option<string>
  {
    match f
    case Absent => Some(default)
    case Null => None
    case Present(s) => Some(s)
  }

  /** The detail record appended for one repository. */
  function Detail(r: Repo): RepoDetail
  {
    RepoDetail(r.name, StarsOf(r), ForksOf(r), DeclaredLanguage(r),
               TextOr(r.description, ""), TextOr(r.htmlUrl, ""))
  }

  /** The detail records of the listing, built front to back as the loop does. */
  function Details(repos: seq<Repo>): seq<RepoDetail>
  {
    if repos == [] then [] else Details(repos[..|repos| - 1]) + [Detail(repos[|repos| - 1])]
  }

  /** One detail record per repository, in listing order. */
  lemma {:induction false} DetailsInOrder(repos: seq<Repo>)
    ensures |Details(repos)| == |repos|
    ensures forall i :: 0 <= i < |repos| ==> Details(repos)[i] == Detail(repos[i])
    decreases |repos|
  {
    if repos != [] {
      var n := |repos| - 1;
      var front := Details(repos[..n]);
      DetailsInOrder(repos[..n]);
      assert Details(repos) == front + [Detail(repos[n])];
      forall i | 0 <= i < |repos| ensures Details(repos)[i] == Detail(repos[i]) {
        if i < n {
          assert repos[..n][i] == repos[i];
        }
      }
    }
  }

  /** The counter updates one repository causes, in order: every entry of a
      non-empty language map, or else (exception or empty map) one count for
      its declared language. */
  function RepoIncrements(r: Repo, response: LangFetch): (incs: seq<LangCount>)
    ensures incs != []
    ensures response.Fetched? && response.langs != [] ==> incs == response.langs
    ensures response.Raised? || response.langs == [] ==> incs == [(DeclaredLanguage(r), 1)]
  {
    if response.Fetched? && response.langs != [] then response.langs
    else [(DeclaredLanguage(r), 1)]
  }

  /** The counter updates of the whole loop, repository after repository. */
  function Increments(repos: seq<Repo>, fetch: Fetcher, username: string): seq<LangCount>
  {
    if repos == [] then []
    else
      var last := repos[|repos| - 1];
      Increments(repos[..|repos| - 1], fetch, username) + RepoIncrements(last, fetch(username, last.name))
  }

  /** The star total over the listing, summed front to back. */
  function TotalStars(repos: seq<Repo>): int
  {
    SumOf(repos, StarsOf)
  }

  /** The fork total over the listing, summed front to back. */
  function TotalForks(repos: seq<Repo>): int
  {
    SumOf(repos, ForksOf)
  }

  /** The language breakdown the loop leaves in the counter. */
  function Breakdown(repos: seq<Repo>, fetch: Fetcher, username: string): (t: Tally)
    ensures WellFormed(t)
  {
    Accumulate(Increments(repos, fetch, username))
  }

  /** The weight one repository adds to lang. */
  function RepoWeight(r: Repo, fetch: Fetcher, username: string, lang: string): int
  {
    SumFor(RepoIncrements(r, fetch(username, r.name)), lang)
  }

  /** RepoWeight as a function of the repository alone, for summing. */
  function WeightFor(fetch: Fetcher, username: string, lang: string): Repo -> int
  {
    r => RepoWeight(r, fetch, username, lang)
  }

  /** Whether one repository puts lang into the counter. */
  predicate Contributes(r: Repo, fetch: Fetcher, username: string, lang: string)
  {
    Mentions(RepoIncrements(r, fetch(username, r.name)), lang)
  }

  /** The try/except for one repository: merge a non-empty language map into
      the counter entry by entry, or else count the declared language once. */
  method CountLanguages(counter: Counter, repo: Repo, response: LangFetch, ghost done: seq<LangCount>)
    requires counter.Snapshot() == Accumulate(done)
    modifies counter
    ensures counter.Snapshot() == Accumulate(done + RepoIncrements(repo, response))
  {
    if response.Fetched? && response.langs != [] {
      var langs := response.langs;
      assert done + langs[..0] == done;
      for j := 0 to |langs|
        invariant counter.Valid()
        invariant counter.Snapshot() == Accumulate(done + langs[..j])
      {
        ExtendPrefix(done, langs, j);
        AccumulateSnoc(done + langs[..j], langs[j]);
        counter.Add(langs[j].0, langs[j].1);
      }
      assert langs[..|langs|] == langs;
    } else {
      AccumulateSnoc(done, (DeclaredLanguage(repo), 1));
      counter.Add(DeclaredLanguage(repo), 1);
    }
  }

  /** One more element of langs taken after done. */
  lemma {:induction false} ExtendPrefix(done: seq<LangCount>, langs: seq<LangCount>, j: nat)
    requires j < |langs|
    ensures done + langs[..j + 1] == (done + langs[..j]) + [langs[j]]
  {
    assert langs[..j + 1] == langs[..j] + [langs[j]];
  }

  lemma {:induction false} SummarizeStep(repos: seq<Repo>, i: nat, fetch: Fetcher, username: string)
    requires i < |repos|
    ensures TotalStars(repos[..i + 1]) == TotalStars(repos[..i]) + StarsOf(repos[i])
    ensures TotalForks(repos[..i + 1]) == TotalForks(repos[..i]) + ForksOf(repos[i])
    ensures Details(repos[..i + 1]) == Details(repos[..i]) + [Detail(repos[i])]
    ensures Increments(repos[..i + 1], fetch, username) ==
            Increments(repos[..i], fetch, username) + RepoIncrements(repos[i], fetch(username, repos[i].name))
  {
    assert repos[..i + 1][..i] == repos[..i];
  }

  /** `summarize_repos(repos, fetcher, username)`. */
  method SummarizeRepos(repos: seq<Repo>, fetch: Fetcher, username: string) returns (s: Summary)
    ensures s.totalStars == TotalStars(repos)
    ensures s.totalForks == TotalForks(repos)
    ensures |s.repoDetails| == |repos|
    ensures forall i :: 0 <= i < |repos| ==> s.repoDetails[i] == Detail(repos[i])
    ensures s.languageBreakdown == Breakdown(repos, fetch, username)
    ensures s.mostUsedLanguage == MostUsed(s.languageBreakdown)
  {
    var totalStars, totalForks := 0, 0;
    var counter := new Counter();
    var repoDetails: seq<RepoDetail> := [];
    for i := 0 to |repos|
      invariant totalStars == TotalStars(repos[..i])
      invariant totalForks == TotalForks(repos[..i])
      invariant repoDetails == Details(repos[..i])
      invariant counter.Snapshot() == Accumulate(Increments(repos[..i], fetch, username))
    {
      var repo := repos[i];
      SummarizeStep(repos, i, fetch, username);
      totalStars := totalStars + StarsOf(repo);
      totalForks := totalForks + ForksOf(repo);
      var response := fetch(username, repo.name);
      CountLanguages(counter, repo, response, Increments(repos[..i], fetch, username));
      repoDetails := repoDetails + [Detail(repo)];
    }
    assert repos[..|repos|] == repos;
    DetailsInOrder(repos);
    var breakdown := counter.Snapshot();
    s := Summary(totalStars, totalForks, MostUsed(breakdown), repoDetails, breakdown);
  }

  lemma {:induction false} IncrementsSum(repos: seq<Repo>, fetch: Fetcher, username: string, lang: string)
    ensures SumFor(Increments(repos, fetch, username), lang) == SumOf(repos, WeightFor(fetch, username, lang))
  {
    if repos != [] {
      var n := |repos| - 1;
      var prefix, last := repos[..n], repos[n];
      IncrementsSum(prefix, fetch, username, lang);
      SumForAppend(Increments(prefix, fetch, username), RepoIncrements(last, fetch(username, last.name)), lang);
    }
  }

  lemma {:induction false} IncrementsMention(repos: seq<Repo>, fetch: Fetcher, username: string, lang: string)
    ensures Mentions(Increments(repos, fetch, username), lang) <==>
            exists i :: 0 <= i < |repos| && Contributes(repos[i], fetch, username, lang)
  {
    if repos != [] {
      var n := |repos| - 1;
      var prefix, last := repos[..n], repos[n];
      IncrementsMention(prefix, fetch, username, lang);
      MentionsConcat(Increments(prefix, fetch, username), RepoIncrements(last, fetch(username, last.name)), lang);
      if Mentions(Increments(repos, fetch, username), lang) {
        if Mentions(Increments(prefix, fetch, username), lang) {
          var i :| 0 <= i < n && Contributes(prefix[i], fetch, username, lang);
          assert prefix[i] == repos[i];
        } else {
          assert Contributes(repos[n], fetch, username, lang);
        }
      } else {
        forall i | 0 <= i < |repos| ensures !Contributes(repos[i], fetch, username, lang) {
          if i < n {
            assert prefix[i] == repos[i];
          }
        }
      }
    }
  }

  /** Each language's final weight is the sum, over the repositories, of what
      each one adds to it; the language is present exactly when some
      repository adds it. */
  lemma {:induction false} BreakdownWeight(repos: seq<Repo>, fetch: Fetcher, username: string, lang: string)
    ensures lang in Breakdown(repos, fetch, username).counts <==>
            exists i :: 0 <= i < |repos| && Contributes(repos[i], fetch, username, lang)
    ensures WeightOf(Breakdown(repos, fetch, username), lang) == SumOf(repos, WeightFor(fetch, username, lang))
  {
    var incs := Increments(repos, fetch, username);
    AccumulateAt(incs, lang);
    WeightOfAccumulate(incs, lang);
    IncrementsSum(repos, fetch, username, lang);
    IncrementsMention(repos, fetch, username, lang);
  }

  lemma {:induction false} IncrementsSnoc(repos: seq<Repo>, r: Repo, fetch: Fetcher, username: string)
    ensures Increments(repos + [r], fetch, username) ==
            Increments(repos, fetch, username) + RepoIncrements(r, fetch(username, r.name))
  {
    assert (repos + [r])[..|repos|] == repos;
  }

  /** A repository whose language lookup raises or returns an empty map adds
      exactly one to its declared language and changes nothing else. */
  lemma {:induction false} FallbackCountsOnce(repos: seq<Repo>, r: Repo, fetch: Fetcher, username: string)
    requires fetch(username, r.name).Raised? || fetch(username, r.name).langs == []
    ensures var before, after, d := Breakdown(repos, fetch, username), Breakdown(repos + [r], fetch, username), DeclaredLanguage(r);
      && WeightOf(after, d) == WeightOf(before, d) + 1
      && (forall lang :: lang != d ==> WeightOf(after, lang) == WeightOf(before, lang))
      && after.keys == if d in before.counts then before.keys else before.keys + [d]
  {
    var d := DeclaredLanguage(r);
    var before := Breakdown(repos, fetch, username);
    IncrementsSnoc(repos, r, fetch, username);
    AccumulateSnoc(Increments(repos, fetch, username), (d, 1));
    assert Breakdown(repos + [r], fetch, username) == Bump(before, d, 1);
    forall lang | lang != d
      ensures WeightOf(Bump(before, d, 1), lang) == WeightOf(before, lang)
    {
      BumpOthers(before, d, 1, lang);
    }
  }

  /** A repository whose lookup returns a non-empty map adds every entry of it
      to that language, and gives its declared language nothing beyond what
      the map says. */
  lemma {:induction false} FetchedMapMerged(repos: seq<Repo>, r: Repo, fetch: Fetcher, username: string, lang: string)
    requires fetch(username, r.name).Fetched? && fetch(username, r.name).langs != []
    ensures var langs := fetch(username, r.name).langs;
      WeightOf(Breakdown(repos + [r], fetch, username), lang) ==
      WeightOf(Breakdown(repos, fetch, username), lang) + SumFor(langs, lang)
    ensures !Mentions(fetch(username, r.name).langs, DeclaredLanguage(r)) ==>
      WeightOf(Breakdown(repos + [r], fetch, username), DeclaredLanguage(r)) ==
      WeightOf(Breakdown(repos, fetch, username), DeclaredLanguage(r))
  {
    var langs := fetch(username, r.name).langs;
    var before := Increments(repos, fetch, username);
    IncrementsSnoc(repos, r, fetch, username);
    WeightOfAccumulate(before + langs, lang);
    WeightOfAccumulate(before, lang);
    SumForAppend(before, langs, lang);
    var d := DeclaredLanguage(r);
    WeightOfAccumulate(before + langs, d);
    WeightOfAccumulate(before, d);
    SumForAppend(before, langs, d);
    if !Mentions(langs, d) {
      SumForUnmentioned(langs, d);
    }
  }

  /** What one repository adds to lang when its lookup raises or returns an
      empty map: one for its declared language, nothing for any other. */
  lemma {:induction false} FallbackWeight(r: Repo, response: LangFetch, lang: string)
    requires response.Raised? || response.langs == []
    ensures SumFor(RepoIncrements(r, response), lang) == if lang == DeclaredLanguage(r) then 1 else 0
  {
    assert RepoIncrements(r, response)[..0] == [];
  }

  /** A lookup failure for the repository at position k changes no other
      repository's share of the breakdown: the weights differ from those of a
      successful run only by what that one repository adds. */
  lemma {:induction false} FailureIsLocal(repos: seq<Repo>, k: nat, fetch: Fetcher, failing: Fetcher, username: string, lang: string)
    requires k < |repos|
    requires failing(username, repos[k].name) == Raised
    requires forall i :: 0 <= i < |repos| && i != k ==>
               failing(username, repos[i].name) == fetch(username, repos[i].name)
    ensures WeightOf(Breakdown(repos, failing, username), lang) ==
            WeightOf(Breakdown(repos, fetch, username), lang)
            - RepoWeight(repos[k], fetch, username, lang)
            + (if lang == DeclaredLanguage(repos[k]) then 1 else 0)
  {
    var f, g := WeightFor(fetch, username, lang), WeightFor(failing, username, lang);
    BreakdownWeight(repos, fetch, username, lang);
    BreakdownWeight(repos, failing, username, lang);
    forall i | 0 <= i < |repos| && i != k ensures f(repos[i]) == g(repos[i]) {
      assert failing(username, repos[i].name) == fetch(username, repos[i].name);
    }
    SumOfExcept(repos, k, f, g);
    FallbackWeight(repos[k], Raised, lang);
  }

  /** Stars, forks and every language weight are the same for any order of
      the repositories. */
  lemma {:induction false} OrderIndependent(repos: seq<Repo>, shuffled: seq<Repo>, fetch: Fetcher, username: string)
    requires multiset(repos) == multiset(shuffled)
    ensures TotalStars(repos) == TotalStars(shuffled)
    ensures TotalForks(repos) == TotalForks(shuffled)
    ensures Breakdown(repos, fetch, username).counts == Breakdown(shuffled, fetch, username).counts
  {
    SumOfPermutation(repos, shuffled, StarsOf);
    SumOfPermutation(repos, shuffled, ForksOf);
    var a, b := Breakdown(repos, fetch, username), Breakdown(shuffled, fetch, username);
    forall lang
      ensures lang in a.counts <==> lang in b.counts
      ensures lang in a.counts ==> a.counts[lang] == b.counts[lang]
    {
      OrderIndependentAt(repos, shuffled, fetch, username, lang);
    }
  }

  /** One language's entry is the same for any order of the repositories. */
  lemma {:induction false} OrderIndependentAt(repos: seq<Repo>, shuffled: seq<Repo>, fetch: Fetcher, username: string, lang: string)
    requires multiset(repos) == multiset(shuffled)
    ensures lang in Breakdown(repos, fetch, username).counts <==> lang in Breakdown(shuffled, fetch, username).counts
    ensures WeightOf(Breakdown(repos, fetch, username), lang) == WeightOf(Breakdown(shuffled, fetch, username), lang)
  {
    BreakdownWeight(repos, fetch, username, lang);
    BreakdownWeight(shuffled, fetch, username, lang);
    SumOfPermutation(repos, shuffled, WeightFor(fetch, username, lang));
    if lang in Breakdown(repos, fetch, username).counts {
      var i :| 0 <= i < |repos| && Contributes(repos[i], fetch, username, lang);
      assert repos[i] in multiset(shuffled);
      var j :| 0 <= j < |shuffled| && shuffled[j] == repos[i];
    }
    if lang in Breakdown(shuffled, fetch, username).counts {
      var j :| 0 <= j < |shuffled| && Contributes(shuffled[j], fetch, username, lang);
      assert shuffled[j] in multiset(repos);
      var i :| 0 <= i < |repos| && repos[i] == shuffled[j];
    }
  }


  /** The breakdown is empty exactly when there are no repositories, so the
      most used language is the sentinel for an empty listing and otherwise a
      key of maximal weight. */
  lemma {:induction false} EmptyBreakdownIffNoRepos(repos: seq<Repo>, fetch: Fetcher, username: string)
    ensures Breakdown(repos, fetch, username).keys == [] <==> repos == []
    ensures repos == [] ==> MostUsed(Breakdown(repos, fetch, username)) == Unknown
  {
    var incs := Increments(repos, fetch, username);
    AccumulateEmpty(incs);
    if repos != [] {
      var last := repos[|repos| - 1];
      assert |incs| >= |RepoIncrements(last, fetch(username, last.name))| > 0;
    }
  }

  /** The counter updates of the scenario below: the fetched Go entry, then the
      fallback count for Python. */
  lemma {:induction false} MixedLookupIncrements(go: Repo, py: Repo, fetch: Fetcher, username: string)
    requires fetch(username, go.name) == Fetched([("Go", 100)])
    requires fetch(username, py.name) == Raised
    requires py.language == Some("Python")
    ensures Increments([go, py], fetch, username) == [("Go", 100), ("Python", 1)]
  {
    IncrementsSnoc([], go, fetch, username);
    assert [] + [go] == [go];
    IncrementsSnoc([go], py, fetch, username);
    assert [go] + [py] == [go, py];
  }

  /** Two repositories, one whose lookup gives {Go: 100} and one declaring
      Python whose lookup raises: the breakdown is {Go: 100, Python: 1} in that
      order and the most used language is Go. */
  lemma {:induction false} MixedLookupScenario(go: Repo, py: Repo, fetch: Fetcher, username: string)
    requires fetch(username, go.name) == Fetched([("Go", 100)])
    requires fetch(username, py.name) == Raised
    requires py.language == Some("Python")
    ensures Breakdown([go, py], fetch, username) == Tally(["Go", "Python"], map["Go" := 100, "Python" := 1])
    ensures MostUsed(Breakdown([go, py], fetch, username)) == "Go"
  {
    MixedLookupIncrements(go, py, fetch, username);
    assert "Go" != "Python" by {
      assert "Go"[1] != "Python"[1];
    }
    TwoLanguagesTally("Go", 100, "Python", 1);
    TwoLanguagesMostUsed("Go", 100, "Python", 1);
  }

  /** The sentinel is also a real key: a single repository with no declared
      language whose lookup raises makes "Unknown" the most used language of
      a non-empty listing. */
  lemma {:induction false} UnknownFromNonEmptyListing(r: Repo, fetch: Fetcher, username: string)
    requires r.language.None?
    requires fetch(username, r.name) == Raised
    ensures Breakdown([r], fetch, username).keys == [Unknown]
    ensures MostUsed(Breakdown([r], fetch, username)) == Unknown
  {
    IncrementsSnoc([], r, fetch, username);
    assert [] + [r] == [r];
    assert Increments([r], fetch, username) == [(Unknown, 1)];
    AccumulateSnoc([], (Unknown, 1));
    assert [] + [(Unknown, 1)] == [(Unknown, 1)];
  }
}
