# SignallSniper core in Dafny

This project models the ingestion and aggregation core of SignallSniper (`main.py`).
The service polls three subreddits for their hot posts and tests each post against six
ticker symbols. For every match it stores one sentiment record under the ticker, and it
answers two queries over that store: a ticker's records, and the ten most mentioned tickers.

The modules follow the program's structure:

- `Text` (`text.dfy`): `clean_text`. Newlines become spaces and surrounding whitespace is
  stripped. Whitespace is Python's `str.isspace` set.
- `Matcher` (`matcher.dfy`): the case-insensitive substring test that decides whether a
  post mentions a ticker.
- `Ranking` (`ranking.dfy`): the stable descending sort behind the trending list. This is
  Python's `sorted(..., reverse=True)`, written as an insertion sort and proved to be a
  sorted, stable permutation. The module also holds the cut to the first `n` elements.
- `Pipeline` (`pipeline.dfy`): the configuration constants, the record types, and pure
  reference functions for one scrape cycle:
  - which (post, ticker) pairs match, in visiting order;
  - which record each pair produces;
  - an independent per-ticker definition, "every post that mentions `t`".
- `Store` (`store.dfy`): the dictionary `sentiment_data` as class `SentimentData`.
  - The class holds a map from ticker to records and the keys in insertion order, which is
    Python's dictionary iteration order.
  - The imperative scrape cycle is its methods `ScrapeReddit`, `ScrapeSubreddit` and
    `ScrapePost`: three nested loops that append.
  - The two queries are functions.

The outside world enters as parameters:
- `listing: string -> seq<Post>` stands for Reddit's hot listing of a subreddit;
- `classify: string -> Verdict` stands for the sentiment model;
- `clock: nat -> Timestamp` stands for the clock. The `i`-th record built in a cycle reads
  `clock(i)`.

## Model

| member | source | states |
|---|---|---|
| Text.IsSpace | main.py:48 | the whitespace set that stripping removes (Python's `str.isspace`): space, tab, newline and carriage return are in it; no printable ASCII character other than space is |
| Text.ReplaceNewlines | main.py:48 | the length is kept; every newline becomes a space and every other character is unchanged; no newline is left |
| Text.Strip | main.py:48 | the result has no whitespace at either end, and it is a contiguous part of the input with only whitespace on both sides of it |
| Text.StripUnique | main.py:48 | whitespace, then a trimmed middle, then whitespace strips to exactly that middle |
| Text.StripBlank | main.py:48 | stripping yields the empty string exactly when the input is all whitespace |
| Text.CleanText | main.py:47-48 | the cleaned text contains no newline and has no leading or trailing whitespace |
| Text.CleanTextFixed | main.py:47-48 | a text without newlines or surrounding whitespace is left unchanged |
| Text.CleanTextIdempotent | main.py:47-48 | cleaning twice is cleaning once |
| Text.CleanTextBlank | main.py:47-48 | cleaning yields the empty string exactly when the input holds only whitespace and newlines |
| Matcher.Upper | main.py:62 | the length is kept; each character is upper-cased; no lower-case ASCII letter remains |
| Matcher.Contains | main.py:62 | Python's `in` on strings: true exactly when the pattern occurs as a contiguous run |
| Matcher.DollarSubsumed | main.py:62 | a text containing `$T` contains `T` |
| Matcher.Mentions | main.py:60-62 | a post mentions a ticker exactly when its upper-cased text contains the ticker; the `$` disjunct adds nothing |
| Matcher.MentionsIgnoresCase | main.py:62 | matching gives the same answer on the text and on its upper-cased form |
| Matcher.WordContainingTicker | main.py:62 | the test is on substrings, not words: `camcorder` mentions `AMC` |
| Ranking.Insert | main.py:80 | inserting adds exactly one element and keeps the others (multiset) |
| Ranking.SortDesc | main.py:80 | the sort returns a permutation of its input |
| Ranking.SortDescSorted | main.py:80 | keys are non-increasing after the sort |
| Ranking.SortDescStable | main.py:80 | for every key, the elements with that key keep their input order |
| Ranking.MapSortDesc | main.py:80-81 | sorting items and then projecting them equals sorting the projections, when the projection keeps the key |
| Ranking.Top | main.py:80-81 | the cut has `min(length, n)` elements, all from the input |
| Ranking.TopMap | main.py:80-81 | projecting the cut equals cutting the projection |
| Ranking.TopFacts | main.py:80-81 | the cut is sorted; among equal keys it keeps the earliest input elements, in input order; anything left out has a key no larger than the last one kept |
| Pipeline.Take | main.py:51 | Python's `xs[:n]`: a prefix of length `min(len, n)` |
| Pipeline.Hot | main.py:56-57 | the posts read from a subreddit are the first `min(len, 100)` posts of its listing: exactly 100 for a longer listing, the whole listing otherwise |
| Pipeline.Analyze | main.py:50-52 | the verdict is the classifier's answer on the prefix of the text of length `min(len, 512)`, and on the whole text when it is no longer |
| Pipeline.FullText | main.py:58-60 | the matched text is the cleaned title, one space, then the cleaned body; it contains no newline |
| Pipeline.PostHits | main.py:61-62 | one post has at most as many matches as there are tickers; each is built from that post, names a listed ticker, and its text mentions that ticker (one match per tracked, mentioned ticker is `PostHitsFor`) |
| Pipeline.PostsHits | main.py:57-62 | every match of a subreddit's posts names that subreddit and a listed ticker, and its text mentions the ticker |
| Pipeline.CycleHits | main.py:55-62 | every match of a cycle names a polled subreddit and a listed ticker, and its text mentions the ticker |
| Pipeline.ToEntry | main.py:63-71 | the record carries the match's ticker, subreddit and cleaned title, the classifier's verdict on the first 512 characters, and the given time |
| Pipeline.Stamp | main.py:63-72 | one record per match |
| Pipeline.PostHitsFor | main.py:61-62 | with distinct tickers, a post yields one match for `t` if `t` is tracked and mentioned, and none otherwise |
| Pipeline.PostsHitsFor | main.py:57-62 | a subreddit's matches for a tracked `t` are exactly its posts that mention `t`, in order; an untracked `t` has none |
| Pipeline.CycleHitsFor | main.py:55-62 | a cycle's matches for a tracked `t` are exactly the posts mentioning `t`, in visiting order; an untracked `t` has none |
| Pipeline.EntriesForStamp | main.py:63-72 | a ticker's records correspond one to one, in order, to its matches; each has the match's ticker, subreddit and cleaned title, and the classifier's verdict on the first 512 characters of the text |
| Pipeline.CycleEntriesFor | main.py:54-72 | for the configured subreddits and tickers, a cycle adds under `t` one record per post mentioning `t`, in visiting order and describing that post; an untracked `t` gets nothing |
| Pipeline.MentioningInFacts | main.py:57-62 | every match for `t` in a subreddit carries `t` and that subreddit, and its text mentions `t` |
| Pipeline.MentioningFacts | main.py:55-62 | every match for `t` in a cycle carries `t` and a polled subreddit, and its text mentions `t` |
| Pipeline.MentioningOnePost | main.py:55-62 | if only the first subreddit lists anything, and that is one post, the cycle's matches for `t` are that post when it mentions `t` |
| Pipeline.OnePostEntries | main.py:54-72 | in that case, a mentioning post gives one record for `t` with the first subreddit, the cleaned title and the classifier's verdict |
| Pipeline.BodylessFullText | main.py:58-60 | a post with a clean title and an empty body is matched on the title followed by a space |
| Pipeline.MoonMentions | main.py:62 | the text `$GME to the moon ` mentions `GME` and is shorter than the classifier's 512-character cut |
| Pipeline.MoonScenario | main.py:54-72 | one post titled `$GME to the moon`, classified POSITIVE with score 0.97: the cycle stores exactly one GME record, with that verdict, the subreddit and the title |
| Store.NewKeysFacts | main.py:72 | the keys a cycle creates are exactly the tickers of its records that were not keys before, each once, so no key exists without a record |
| Store.Lookup | main.py:76 | the list stored under a key, or the empty list when it is not a key |
| Store.ItemSize | main.py:80 | the sort key is a list's length; it is zero exactly for an empty list |
| Store.ToMention | main.py:81 | the projected row keeps the ticker, and its count equals the item's sort key |
| Store.Items | main.py:80 | the dictionary's items in insertion order |
| Store.Tally | main.py:80-81 | every ticker with its record count, in insertion order |
| Store.SentimentData.constructor | main.py:36 | the store starts empty and satisfies its invariant |
| Store.SentimentData.Append | main.py:72 | the ticker's list, created empty on first use, grows by the entry at its end; no other list changes; a new key goes after the old ones; the invariant is kept |
| Store.SentimentData.ScrapeReddit | main.py:54-72 | after a cycle, every ticker's list is its old list followed by exactly the cycle's records for it, in visiting order; new keys follow in order of first record; the invariant is kept |
| Store.SentimentData.ScrapeSubreddit | main.py:56-72 | one subreddit's posts extend the store by exactly their records, in post order |
| Store.SentimentData.ScrapePost | main.py:58-72 | one post extends the store by one record per tracked ticker it mentions, in ticker order; the clock is read once per record |
| Store.ExtendsStep | main.py:72 | one append extends the run of records by one, in both the lists and the key order |
| Store.LookupStep | main.py:72 | one append adds the record under its ticker only |
| Store.NewKeysStep | main.py:72 | one append adds its ticker as a key exactly when it was not yet a key |
| Store.SentimentData.GetSentiment | main.py:75-76 | the records stored under the upper-cased ticker, or none if it is not a key; each returned record is filed under that ticker; reading never changes the store |
| Store.GetSentimentIgnoresCase | main.py:76 | the query gives the same answer for a ticker and for its upper-cased form |
| Store.MoonCycle | main.py:54-76 | from a fresh store, one cycle over the one-post `$GME to the moon` listing with a POSITIVE 0.97 verdict, then the query `gme`, returns exactly one GME record with that verdict, the subreddit and the title |
| Store.SentimentData.GetTrending | main.py:79-81 | at most ten rows, fewer only when there are fewer tickers; each row's count is its list length and positive; counts are non-increasing; ties keep insertion order and the earliest inserted win; any ticker left out has no more records than the tenth row |
| Store.TrendingFacts | main.py:79-81 | the same properties, proved on the sorted tally: sorting items by length and then projecting is sorting the projected rows |

## Left out

- The Reddit client is left out (main.py:19-23, 56). This covers its construction, its credentials from environment variables, and the network fetch. The hot listing is the parameter `listing`. `hot(limit=100)` is modelled as the first 100 posts of that listing.
- The HuggingFace sentiment pipeline is left out (main.py:24, 51). It is a foreign model, so it is the parameter `classify`. The 512-character cut before the call is modelled. The `[0]` indexing and the dictionary access of the result are folded into `classify` returning a label and a score.
- The score is a `real` that is carried through unchanged. Float conversion and rounding are not modelled.
- The clock is left out. `datetime.utcnow().isoformat()` (main.py:68) becomes `clock(i)`, the reading for the `i`-th record of a cycle. Its string format is not modelled.
- FastAPI is left out: the app, the CORS middleware, the routes, the pydantic response model, the startup hook and `uvicorn.run` (main.py:27-34, 38-44, 74, 78, 83-88). This is HTTP and process plumbing. The query functions return the stored records as they are.
- Matcher.Upper: only ASCII `a`-`z` are upper-cased. Python's full Unicode case mapping, including length-changing mappings such as `ß`, is not modelled.
- Exceptions are not modelled. `main.py` has no handler, so a failing fetch or classifier call propagates out of `scrape_reddit` and out of the start-up hook (main.py:83-85): the cycle stops there, the records already appended stay in `sentiment_data`, and start-up fails. The model's parameters are total functions, so that path does not arise.
- The record's text field holds the whole cleaned title, as the code stores it. It is not cut to a bounded excerpt.
- Concurrency between cycles is not modelled. The source runs one cycle at start-up.
- Store.SentimentData.ScrapeSubreddit and Store.SentimentData.ScrapePost are the bodies of the subreddit loop and the post loop of `scrape_reddit`, factored out as methods. They add no behaviour of their own.
