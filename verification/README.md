# Keyword extractor crawl core, modelled in Dafny

This project models the decision logic of `KeywordExtractor` in
`keyword_extractor.py`, a script that crawls a site from a seed URL under a page
budget, extracts keywords from every visited page, and writes a keyword
frequency table sorted by count. It models three parts:

- **Internal-link filter** (`get_internal_links`, module `Links`). A page's
  anchors give raw `href` values. A missing or empty href is dropped. A
  root-relative href (leading `/`) becomes `base_url + href`. Any other href
  is kept unchanged only if it already starts with `base_url`. The result is a
  set. A page whose fetch raised an exception yields the empty set.
- **Crawl frontier loop** (`crawl`, module `Crawl`). The pending set starts as
  `{base_url}` and the visited set starts empty. Each round pops an arbitrary
  pending URL (modelled with `:|`). A URL not yet visited is marked visited,
  its keywords are appended, and its links minus the visited set join the
  pending set. The loop stops when nothing is pending or
  `len(visited) >= max_pages`.
- **Frequency table** (`save_results`, module `Frequency`). `Counter` over the
  accumulated keyword list is an insertion-ordered dictionary. Its items are
  sorted by count, largest first, and the sort is not stable.

The outside world enters as a `Site` (module `Fetching`). A `Site` is a pair of
fixed per-URL results, one for each request the crawler makes per page: the
page's hrefs or a failure, and the page's keyword list or a failure. The two
are independent because the program issues two separate `requests.get` calls
per page, and either can fail without the other failing.

Scope is a textual prefix test against `base_url`. It is not a host
comparison, and the parsed `self.domain` is never used. Root-relative hrefs are
appended to the seed URL as given. A seed with a trailing slash therefore
produces a doubled slash, and a seed with a path puts the href under that path.
Both follow from the general contract of `Links.Resolve`;
`Links.RootRelativeKeepsSeedText` spells out concrete instances.

The central result is the frontier invariant `Crawl.Valid`, which every round
keeps. It states:

- the pending set is exactly the known URLs (the seed, or links found on
  visited pages) that have not been visited yet;
- the visit order has no repeats and matches the visited set;
- every URL was already known at the moment it was visited;
- the keyword list is the concatenation of the visited pages' keyword lists,
  in visit order.

From it, `Crawl.Crawl` gets the rest:

- the page budget is respected;
- no page is visited twice;
- every visited URL is in scope;
- the seed is visited first when `max_pages > 0`;
- the loop terminates on the measure `(max_pages - |visited|, |pending|)`;
- if the loop stops with budget to spare, every known link was visited.

The model follows the code as written: prefix scope, arbitrary pop order,
`Counter` over the concatenated per-page lists, and no claim about the order
of equal counts.

## Model

| member | source | states |
|---|---|---|
| Links.Resolve | keyword_extractor.py:29-34 | An href yields a link exactly when it is present, non-empty, and either starts with '/' or starts with the seed URL. A root-relative href yields seed + href, any other yields itself, and every link yielded starts with the seed URL. |
| Links.InternalLinks | keyword_extractor.py:26-36 | Every link the filter collects from a page starts with the seed URL. |
| Links.InternalLinksExactly | keyword_extractor.py:26-36 | A URL is in the filter's result if and only if some anchor of the page resolves to it. Anchors that resolve to nothing contribute nothing. |
| Links.LinksIgnoreOrder | keyword_extractor.py:26-36 | The filter's result depends only on which hrefs occur, not on their order or repetition. |
| Links.PageLinks | keyword_extractor.py:22-39 | A page whose fetch or parse failed yields no links. Every link of a fetched page is in scope. |
| Links.RootRelativeKeepsSeedText | keyword_extractor.py:31-34 | Concrete cases: a root-relative href is appended to the seed text verbatim, an off-site absolute href is dropped, and an empty href is dropped. |
| Crawl.PageKeywords | keyword_extractor.py:65-67 | A page whose keyword extraction failed contributes no keywords. |
| Crawl.Start | keyword_extractor.py:69-70 | The initial state satisfies the frontier invariant for every site: only the seed is pending (line 70), and nothing is visited and there are no keywords, as the constructor sets them (lines 16-17). |
| Crawl.Visit | keyword_extractor.py:74-85 | After a round, the popped URL is visited and no longer pending. The visited set only grows, by at most the popped URL. Disjointness of pending and visited is preserved. Only the old pending URLs and the page's links can be pending afterwards. Popping an already visited URL changes neither visited nor keywords. |
| Crawl.VisitKeepsValid | keyword_extractor.py:73-85 | From a valid state, one round keeps the frontier invariant. The popped URL is always new, so the visited set grows by exactly one and the URL is appended to the visit order. |
| Crawl.KnownWhenVisitedAt | keyword_extractor.py:74-85 | The URL-by-URL definition of the invariant's last part holds exactly when every visited URL is the seed or a link found on a page visited before it. |
| Crawl.DiscoveredInScope | keyword_extractor.py:31-34 | Every link discovered on any sequence of visited pages starts with the seed URL. |
| Crawl.DiscoveredPrefix | keyword_extractor.py:85 | The discovered links only accumulate: links found on an earlier prefix of the visits remain discovered. |
| Crawl.VisitedInScope | keyword_extractor.py:74-77 | In a frontier where every visited URL was known when visited, every visited URL starts with the seed URL. |
| Crawl.FirstIsSeed | keyword_extractor.py:70-77 | The first URL visited is the seed. |
| Crawl.ExitSeedFirst | keyword_extractor.py:69-77 | When the loop has stopped and max_pages > 0, at least one page was visited and the first one is the seed. |
| Crawl.ExitClosed | keyword_extractor.py:73 | If the loop stops with fewer than max_pages visits, the pending set is empty and every known URL was visited. |
| Crawl.Crawl | keyword_extractor.py:69-88 | The crawl terminates and visits at most max(max_pages, 0) pages, with no URL twice. Every visited URL is in scope and is the seed or a link found on an earlier page, and the seed comes first when max_pages > 0. On exit nothing is pending or the budget is spent, and with budget left every known link was visited. The keyword list is the visited pages' keyword lists concatenated in visit order. |
| Frequency.Add | keyword_extractor.py:92 | Counting one occurrence raises that keyword's count by one and changes no other count. A known key keeps its position and a new key goes to the end of the insertion order. The dictionary invariant is kept. |
| Frequency.Tally | keyword_extractor.py:92 | In `Counter(kws)` each keyword's count equals its number of occurrences in kws. The keys are exactly the keywords that occur, each listed once in the insertion order. |
| Frequency.TallySum | keyword_extractor.py:92 | The counts of `Counter(kws)` add up to the length of kws. |
| Frequency.Items | keyword_extractor.py:95 | The rows follow the counter's insertion order, each pairing a key with its count. |
| Frequency.InsertDesc | keyword_extractor.py:96 | Inserting a row into a table sorted by descending count keeps it sorted and adds exactly that row. |
| Frequency.SortDesc | keyword_extractor.py:96 | The sorted table is a permutation of the rows, in non-increasing order of count. |
| Frequency.SortDescSum | keyword_extractor.py:96 | Sorting keeps the total of the count column. |
| Frequency.PermutedSum | keyword_extractor.py:96 | Any reordering of a table, so whichever tie order the unstable sort picks, keeps the total of the count column. |
| Frequency.PermutedCounts | keyword_extractor.py:92-96 | In any reordering of the counter's rows, each row holds its keyword's count. |
| Frequency.PermutedDistinct | keyword_extractor.py:92-96 | In any reordering of the rows of a counter with distinct keys, no keyword appears twice. |
| Frequency.PermutedKeys | keyword_extractor.py:92-96 | Any reordering of the counter's rows has a row for exactly the counter's keys. |
| Frequency.Ranking | keyword_extractor.py:92-96 | The final table has each distinct keyword exactly once with its number of occurrences, and no other keyword. Counts add up to the list's length, for this table and, by `Frequency.PermutedSum`, for any other tie order. Rows are in non-increasing order of count and are a permutation of the counter's items. |

## Left out

- HTTP fetching with `requests` is not modelled: the User-Agent header and the exception message printed on failure are I/O. Each request's outcome is a fixed per-URL value of `Site`.
- HTML parsing with BeautifulSoup is not modelled: `find_all('a')`, removing script and style elements, and `get_text` belong to a foreign library. A page's anchors arrive as a given sequence of optional hrefs.
- YAKE keyword extraction (keyword_extractor.py:54-63) is not modelled: it is an opaque floating-point scorer. A page's keyword list is a given per-URL value, and its `top=10` bound is not imposed.
- `time.sleep(1)` and the `tqdm` progress bar: a throttle and a display, with no effect on the result.
- pandas DataFrame construction and CSV writing, `argparse` and `main`: persistence and command-line plumbing.
- Calling `crawl` twice on one instance is not modelled. `Crawl.Crawl` starts from the constructor's state (nothing visited, no keywords), as `main` uses it.
- Frequency.SortDesc: it is one admissible ordering of equal counts (an insertion sort). The pandas sort is not stable, so only sortedness and permutation are claimed, not a particular tie order.
- Crawl.Crawl: the frontier also records the visit order (`order`). The program keeps only the set; the order exists to state how the keyword list is assembled.
