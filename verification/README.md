# LinkedIn MCP server: selection, retry and normalisation logic

This project models the deterministic core of a LinkedIn scraping server that
exposes three remote tools (`login`, `fetch_feed`, `search_jobs`), and of its
two command-line clients. The browser is replaced by plain data:

- a page is the set of selectors visible on it;
- each navigation attempt is an outcome value (`FeedAttempt`, `JobAttempt`);
- a feed post is `Post(text, author, raises)`;
- a job card is `Card(title, company, location, enrichment, raises)`, where
  the enrichment outcome is `NoLink | Fails | Desc(text)`;
- the environment variables are `Option<string>` inputs;
- the existence of `storage.json` is a `sessionSaved` flag.

On the client side:

- each call of the remote function is a `Call` outcome;
- the sleeps of the backoff loop are recorded as a sequence of delays;
- JSON decoding is an oracle `decode: string -> Option<J>`.

Modules, one per component:

- `Auth` (auth.dfy): the `login` tool and the session gate.
- `Navigation` (navigation.dfy): the readiness probe over the four feed
  indicators, the feed navigation retry loop and the job search retry loop.
  Each loop is a method proved equal to a declarative reference function
  ("the first attempt that succeeds among the first three").
- `Feed` (feed.dfy): the post filter and cap loop, and the whole `fetch_feed`.
- `Jobs` (jobs.dfy): the `jobs[:max_jobs]` record loop with best-effort
  descriptions, and the whole `search_jobs`.
- `Client` (client.dfy): `retry_with_backoff` and `parse_response`. These two
  are the same in client.py and client_feed.py, so they are modelled once.
- `Text`, `Util`, `Wrappers`: the string and sequence helpers.

In these places the code behaves differently from what the tools' documented
behaviour suggests, and the model follows the code:

- A login form on the home page raises "Session expired" inside the retried
  block (main.py:119-122, caught at main.py:152). It is retried like any
  other failure, not treated as fatal (`Navigation.SessionExpiryIsRetried`).
- The job search loop retries only timeouts. Any other navigation failure
  ends the search at once (main.py:260).
- The description always gets `"..."` appended, truncated or not (main.py:308).
- The feed cap is tested after the append (main.py:181-184). So `max_posts <= 0`
  still yields up to one entry.
- `jobs[:max_jobs]` is a Python slice (main.py:279). A negative `max_jobs`
  drops that many cards from the end instead of returning nothing.
  "Never more than `max_jobs`" therefore holds only for `max_jobs >= 0`.
- A login alert is reported as `"Login failed: " + text`, not verbatim
  (main.py:62). An empty credential counts as missing, just like an unset one
  (main.py:27).

## Model

| member | source | states |
|---|---|---|
| `Auth.Login` | main.py:24-68 | A missing or empty email or password gives status "error" with the credentials message, and no browser launch is attempted and no session is saved. Status is "success" exactly when both credentials are present and the feed appears, and then the message is "Successfully logged in to LinkedIn"; the session is saved exactly on success; an alert, no alert, or a raise each give its own "Login failed: …"/"Login error: …" message. |
| `Util.Take` | main.py:180 | `s[:n]` for `n >= 0`: a prefix of `s` of length `min(len(s), n)`. The same slice gives `[:500]` at main.py:308. |
| `Util.SliceTo` | main.py:279 | `jobs[:max_jobs]` is a prefix of the cards, of length `min(max_jobs, len)` for `max_jobs >= 0` and `max(len + max_jobs, 0)` for a negative one. |
| `Util.FirstTrue` | main.py:136-144 | The scan in order returns the first index whose flag is set, with all earlier flags unset, and returns none exactly when no flag is set. |
| `Text.Lower` | main.py:175 | `lower()` keeps the length, turns each ASCII capital into its small letter, leaves every other character as it is, and leaves no ASCII capital behind. |
| `Text.ReplaceNewlines` | main.py:180 | `replace('\n', ' ')` keeps the length, turns every newline into a space, leaves every other character as it is, and leaves no newline behind. |
| `Text.ContainsIffOccurs` | main.py:175 | The substring search used for `topic.lower() in text.lower()` succeeds exactly when the needle occurs at some position of the text; the empty topic matches every text. |
| `Navigation.ProbeHit` | main.py:136-146 | The indicator a probe settles on is visible on the page and is the first visible one among the four feed indicators in their listed order; a probe finds nothing exactly when none of the four is visible. |
| `Navigation.AttemptError` | main.py:115-149 | A feed attempt succeeds (raises nothing) exactly when it reaches the probe and the probe finds an indicator; the login form and a failed probe raise. |
| `Navigation.Probe` | main.py:129-149 | The probe waits for the candidates in order and stops at the first visible one. It returns that one after k+1 waits, or nothing after waiting for all of them, and nothing exactly when no candidate is visible. |
| `Navigation.NavigateFeed` | main.py:109-157 | At most 3 attempts. Success at attempt n means every earlier attempt raised, and the indicator is the one attempt n's probe found. Failure means all three raised, and the message is the retry prefix plus the third attempt's error. |
| `Navigation.SessionExpiryIsRetried` | main.py:119-157 | A login form on the first attempt does not end the loop: if the second attempt's probe succeeds, navigation is ready after two attempts. |
| `Navigation.NavigateJobs` | main.py:238-264 | Cards found or the no-results banner end the loop at the first attempt that does not time out, and every earlier attempt timed out. A non-timeout failure propagates from the attempt that met it. Three timeouts give "Failed to load LinkedIn jobs after multiple attempts". |
| `Feed.Excerpt` | main.py:180 | The excerpt has `min(len(text), 300)` characters and no newline; each is the text's character, with `'\n'` replaced by `' '`. |
| `Feed.AuthorName` | main.py:177-178 | The author name is the author element's text when the post has one, and "Unknown" otherwise. |
| `Feed.Entry` | main.py:177-181 | An entry is the author name (or "Unknown"), then ": ", then the post's excerpt: newline-free and at most 300 characters. |
| `Feed.Cap` | main.py:181-184 | The loop stops after `max_posts` entries when `max_posts >= 1`, and after one entry otherwise. |
| `Feed.EntriesAppend` | main.py:172-187 | Entries follow page order: the entries of two runs of posts, one after the other, are the entries of the first run followed by those of the second. |
| `Feed.EntriesMembership` | main.py:174-181 | A string is an entry exactly when it is the entry of some post that can be read and whose lower-cased text contains the lower-cased topic. |
| `Feed.EntriesEmptyIffNoneQualify` | main.py:170-191 | The result is empty exactly when no post qualifies; an empty result is still a normal return. |
| `Feed.SelectPosts` | main.py:168-191 | The post loop returns the earliest qualifying entries in page order, cut at the cap; posts that raise are skipped without stopping the loop. There are at most `max_posts` entries when `max_posts >= 1`, and at most one otherwise. |
| `Feed.FetchFeed` | main.py:70-194 | No session file raises "Not authenticated…". Failed navigation raises "Error fetching LinkedIn feed: " plus the navigation error. Otherwise the result is the capped entries of the posts. |
| `Jobs.Description` | main.py:308 | The description is the first `min(len, 500)` characters of the text followed by "...", so at most 503 characters. |
| `Jobs.Record` | main.py:284-316 | A title, company or location that is present is copied as it is, and a missing one becomes "Unknown". The record has a description exactly when enrichment gave a text, and that description is the truncated text plus "...". |
| `Jobs.RecordsAppend` | main.py:277-321 | Records follow page order: the records of two runs of cards, one after the other, are the first run's records followed by the second's. |
| `Jobs.RecordsOfReadableCards` | main.py:279-321 | When no card raises, there is one record per card, in order, whatever the enrichment outcomes. |
| `Jobs.RecordsBound` | main.py:279-321 | There is never more than one record per card processed. |
| `Jobs.EnrichmentOnlyAffectsDescription` | main.py:294-316 | Changing any card's enrichment outcome (no link, failure, description) leaves the number, order and title/company/location of the records unchanged; only descriptions differ. |
| `Jobs.BuildRecords` | main.py:275-325 | The loop's records are exactly those of the readable cards in `jobs[:max_jobs]`, in page order. For `max_jobs >= 0` there are at most `min(max_jobs, len(jobs))`, and exactly that many when no card raises. |
| `Jobs.SearchJobs` | main.py:196-329 | No session file raises "Not authenticated…". The no-results banner returns `[]`. Failed navigation raises "Error searching LinkedIn jobs: " plus the navigation error. Otherwise the result is the records of `jobs[:max_jobs]`. |
| `Client.Delays` | client_feed.py:10-20 | `Delays(d, n)` is the list of the first n sleep durations of the backoff: it has length n, and its k-th entry (from 0) is `d * 2^k`. |
| `Client.DelaysDouble` | client_feed.py:18-20 | Each sleep of the backoff is twice the one before it. |
| `Client.RetryWithBackoff` | client.py:7-19 | `func` is called at most `max_retries` times. The first successful result is returned at once. The last fault is re-raised once `max_retries` calls have failed. With `max_retries <= 0`, `func` is never called and the result is None. There is one sleep between consecutive calls and none after the last, the k-th being `initial_delay * 2^k`. |
| `Client.DefaultsFailTwiceThenSucceed` | client_feed.py:8-20 | With the defaults (3 retries, initial delay 1), a call that fails twice and then succeeds returns its value after three calls and sleeps of 1 and then 2. |
| `Client.ParseResponse` | client.py:21-30 | The result holds no `.text` object at the top level or inside nested lists. A list becomes a list of the same length whose i-th element is the normalised i-th element. |
| `Client.ParseTextContent` | client_feed.py:26-30 | A `.text` object becomes the decoded value when decoding succeeds, and its raw text on a decode error. |
| `Client.ParseListInOrder` | client_feed.py:24-25 | Lists are normalised element by element in order: normalising a concatenation gives the concatenation of the normalised parts. |
| `Client.ParseFixesNormalised` | client.py:23-30 | A value with no `.text` object at the top level or inside nested lists (a decoded value, a plain string, any value that is neither a list nor a `.text` object, or lists of these) is returned unchanged. |
| `Client.ParseIdempotent` | client_feed.py:22-31 | Normalising an already normalised response changes nothing. |

## Left out

- Browser automation is not modelled: launching, contexts, pages, `goto`,
  `fill`, `click`, screenshots and `wait_for_timeout`. What it produces appears
  as data: attempt outcomes, visible selectors, posts and cards.
- The scroll loops at main.py:161-163 and main.py:268-270 are not modelled.
  They have no effect on the data.
- The 2-second pause between failed feed attempts is not recorded.
- `Auth.Login` merges every browser step that raises before the session is
  saved into one `Raises` outcome. A close that fails after `storage.json` was
  written is not told apart.
- `Feed.FetchFeed` and `Jobs.SearchJobs` do not model the browser steps outside
  the navigation attempts and the per-record handlers. When one of them raises,
  the tool raises "Error fetching LinkedIn feed: …" (main.py:193-194) or
  "Error searching LinkedIn jobs: …" (main.py:327-329), while the model returns
  `Ok`. These steps are:
  - the browser launch and context creation (main.py:88-105, main.py:215-229);
  - `new_page` (main.py:107, main.py:232);
  - the pause between failed feed attempts (main.py:156);
  - the scroll `evaluate` calls and settle waits (main.py:161-166, main.py:268-273);
  - `query_selector_all` for the posts or cards (main.py:168, main.py:275);
  - `browser.close()` (main.py:189, main.py:323), and the one before `return []`
    on the no-results banner (main.py:255). If that one fails, the tool raises
    instead of returning `[]`.
- The default arguments `max_posts=5` (main.py:71) and `max_jobs=3`
  (main.py:197) are not modelled. `Feed.FetchFeed` and `Jobs.SearchJobs` always
  take the cap as an explicit argument.
- `Text.Lower` lowers ASCII letters only. Python's `str.lower` also folds
  non-ASCII letters.
- A link element without an `href` is folded into `NoLink`.
- A description region that passes the wait but is then not found is folded
  into `Fails`. Both leave the description out, as in the source.
- The search URL (`quote(query)`, `quote(location)`) is not modelled, so
  `query` and `location` are not inputs of `Jobs.SearchJobs`.
- `storage.json` and the environment variables are inputs rather than
  file-system and process reads.
- `json.loads` is the `decode` oracle, and decoded JSON is an abstract type `J`.
  A `.text` that holds a JSON array decodes to a Python list. The model keeps
  that as an opaque `Decoded` value, not as a `List`. `Client.ParseResponse`
  therefore promises only that a list stays a list, not that a non-list stays a
  non-list.
- `Client.ParseResponse` does not look inside values other than lists, and
  neither does `parse_response` (client.py:21-30). A dict, a tuple or any other
  object that holds a `.text` object is returned unchanged, `.text` included.
  In the model such values are the opaque `Other` case.
- Delays are integers. A fractional `initial_delay` is not modelled.
- Not modelled: the FastMCP server and its SSE transport, `Client.call_tool`,
  the clients' `main` functions, argument parsing, and all `print` logging.
- The async/await structure is not modelled. Every operation is sequential,
  as the source runs it.
