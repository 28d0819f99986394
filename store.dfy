/** The in-memory sentiment store `sentiment_data` (main.py:36): a dictionary
    from ticker to the list of its records, filled by the scrape cycle
    (main.py:54-72) and read by the two query endpoints (main.py:75-81). */
module Store {
  import opened Text
  import opened Matcher
  import opened Ranking
  import opened Pipeline

  /** The trending list is cut after this many tickers (main.py:81). */
  const TrendingLimit: nat := 10

  /** One row of the trending list: a ticker and its number of records. */
  datatype Mention = Mention(ticker: string, mentions: nat)

  /** The list stored under `t`, or the empty list when `t` is not a key. */
  function Lookup(data: map<string, seq<Entry>>, t: string): (r: seq<Entry>)
    ensures t in data ==> r == data[t]
    ensures t !in data ==> r == []
  {
    if t in data then data[t] else []
  }

  /** The tickers of `es` that are neither in `known` nor seen earlier in `es`,
      in order of first appearance: the keys a run of appends adds to the
      dictionary, in the order they are inserted. */
  function NewKeys(known: seq<string>, es: seq<Entry>): seq<string>
    decreases |es|
  {
    if es == [] then []
    else
      var prev := NewKeys(known, es[..|es| - 1]);
      var t := es[|es| - 1].ticker;
      if t in known || t in prev then prev else prev + [t]
  }

  /** The keys a run of appends creates are exactly the tickers of its records
      that were not keys before, each once: no key appears without a record. */
  lemma {:induction false} NewKeysFacts(known: seq<string>, es: seq<Entry>)
    ensures forall k :: k in NewKeys(known, es) <==> k !in known && exists j :: 0 <= j < |es| && es[j].ticker == k
    ensures Distinct(NewKeys(known, es))
    decreases |es|
  {
    if es != [] {
      var init := es[..|es| - 1];
      var t := es[|es| - 1].ticker;
      var prev := NewKeys(known, init);
      NewKeysFacts(known, init);
      forall k ensures k in NewKeys(known, es) <==> k !in known && exists j :: 0 <= j < |es| && es[j].ticker == k {
        if k !in known && exists j :: 0 <= j < |es| && es[j].ticker == k {
          var j :| 0 <= j < |es| && es[j].ticker == k;
          if j < |es| - 1 {
            assert init[j].ticker == k;
          }
        }
        if k in prev {
          var j :| 0 <= j < |init| && init[j].ticker == k;
          assert es[j].ticker == k;
        }
      }
    }
  }

  /** A dictionary item `(ticker, records)`. */
  type Item = (string, seq<Entry>)

  /** The sort key of main.py:80: the number of records. */
  function ItemSize(item: Item): (r: nat)
    ensures r == 0 <==> item.1 == []
  {
    |item.1|
  }

  /** The projection of main.py:81. */
  function ToMention(item: Item): (r: Mention)
    ensures r.ticker == item.0 && MentionCount(r) == ItemSize(item)
  {
    Mention(item.0, |item.1|)
  }

  function MentionCount(m: Mention): nat {
    m.mentions
  }

  /** `data.items()` in the dictionary's insertion order `keys`. */
  function Items(keys: seq<string>, data: map<string, seq<Entry>>): (r: seq<Item>)
    requires forall k :: k in keys ==> k in data
    ensures |r| == |keys| && forall i :: 0 <= i < |keys| ==> r[i] == (keys[i], data[keys[i]])
  {
    seq(|keys|, i requires 0 <= i < |keys| => (keys[i], data[keys[i]]))
  }

  /** Every ticker with its record count, in insertion order. */
  function Tally(keys: seq<string>, data: map<string, seq<Entry>>): (r: seq<Mention>)
    requires forall k :: k in keys ==> k in data
    ensures |r| == |keys| && forall i :: 0 <= i < |keys| ==> r[i] == Mention(keys[i], |data[keys[i]]|)
  {
    MapSeq(Items(keys, data), ToMention)
  }

  class SentimentData {
    /** ticker -> records, in arrival order */
    var data: map<string, seq<Entry>>
    /** the keys of `data` in insertion order, which is Python's dictionary iteration order */
    var keys: seq<string>

    /** `keys` lists each key of `data` once; a key exists only once a record
        has been appended under it (the dictionary is a `defaultdict` that is
        indexed only to append); every record is filed under its own ticker. */
    ghost predicate Valid()
      reads this
    {
      && Distinct(keys)
      && (forall k :: k in data <==> k in keys)
      && (forall k :: k in data ==> data[k] != [])
      && (forall k, e :: k in data && e in data[k] ==> e.ticker == k)
    }

    /** The empty store at start-up (main.py:36). */
    constructor ()
      ensures Valid() && data == map[] && keys == []
    {
      data := map[];
      keys := [];
    }

    /** The append of main.py:72: the list of `ticker`, created empty on
        first use, grows by `entry` at its end. */
    method Append(ticker: string, entry: Entry)
      requires Valid() && entry.ticker == ticker
      modifies this
      ensures Valid()
      ensures data == old(data)[ticker := Lookup(old(data), ticker) + [entry]]
      ensures keys == if ticker in old(data) then old(keys) else old(keys) + [ticker]
    {
      if ticker in data {
        data := data[ticker := data[ticker] + [entry]];
      } else {
        keys := keys + [ticker];
        data := data[ticker := [entry]];
        assert Lookup(old(data), ticker) + [entry] == [entry];
      }
    }

    /** `scrape_reddit` (main.py:54-72): for every subreddit, every post of its
        hot listing and every tracked ticker the post mentions, one record is
        appended under that ticker. `listing` stands for Reddit, `classify` for
        the sentiment model and `clock(i)` for the time read when the `i`-th
        record of the cycle is built. Every ticker's list gains exactly the
        cycle's records for it, at its end, in visiting order; no other list
        changes; new keys are inserted in the order of their first record. */
    method ScrapeReddit(listing: string -> seq<Post>, classify: string -> Verdict, clock: nat -> Timestamp)
      requires Valid()
      modifies this
      ensures Valid()
      ensures forall t :: Lookup(data, t)
                == Lookup(old(data), t) + EntriesFor(Stamp(CycleHits(Subreddits, listing, Tickers), classify, clock), t)
      ensures keys == old(keys) + NewKeys(old(keys), Stamp(CycleHits(Subreddits, listing, Tickers), classify, clock))
    {
      ghost var hits: seq<Hit> := [];
      var n: nat := 0;
      for s := 0 to |Subreddits|
        invariant Valid()
        invariant hits == CycleHits(Subreddits[..s], listing, Tickers) && n == |hits|
        invariant Extends(old(data), old(keys), data, keys, Stamp(hits, classify, clock))
      {
        var sub := Subreddits[s];
        n := ScrapeSubreddit(sub, listing, classify, clock, n, old(data), old(keys), hits);
        hits := hits + PostsHits(sub, Hot(listing, sub), Tickers);
        CycleHitsSnoc(Subreddits, listing, Tickers, s);
      }
      assert Subreddits[..|Subreddits|] == Subreddits;
    }

    /** The body of the subreddit loop of `scrape_reddit` (main.py:56-72): every
        post of the hot listing of `sub`, in order. `n` records were appended
        earlier in the cycle (they are `hits`); the result counts them together
        with this subreddit's. */
    method ScrapeSubreddit(sub: string, listing: string -> seq<Post>, classify: string -> Verdict,
                           clock: nat -> Timestamp, n: nat,
                           ghost data0: map<string, seq<Entry>>, ghost keys0: seq<string>, ghost hits: seq<Hit>)
      returns (count: nat)
      requires Valid() && n == |hits|
      requires Extends(data0, keys0, data, keys, Stamp(hits, classify, clock))
      modifies this
      ensures Valid()
      ensures count == |hits + PostsHits(sub, Hot(listing, sub), Tickers)|
      ensures Extends(data0, keys0, data, keys, Stamp(hits + PostsHits(sub, Hot(listing, sub), Tickers), classify, clock))
    {
      var posts := Hot(listing, sub);
      ghost var all := hits;
      count := n;
      for p := 0 to |posts|
        invariant Valid()
        invariant all == hits + PostsHits(sub, posts[..p], Tickers) && count == |all|
        invariant Extends(data0, keys0, data, keys, Stamp(all, classify, clock))
      {
        count := ScrapePost(sub, posts[p], classify, clock, count, data0, keys0, all);
        ConcatAssoc(hits, PostsHits(sub, posts[..p], Tickers), PostHits(sub, posts[p], Tickers));
        all := all + PostHits(sub, posts[p], Tickers);
        PostsHitsSnoc(sub, posts, Tickers, p);
      }
      assert posts[..|posts|] == posts;
    }

    /** The body of the post loop of `scrape_reddit` (main.py:58-72): clean the
        post, then test it against every tracked ticker in order and append one
        record per match. `n` records were appended earlier in the cycle (they
        are `hits`); the result counts them together with this post's. */
    method ScrapePost(sub: string, post: Post, classify: string -> Verdict, clock: nat -> Timestamp, n: nat,
                      ghost data0: map<string, seq<Entry>>, ghost keys0: seq<string>, ghost hits: seq<Hit>)
      returns (count: nat)
      requires Valid() && n == |hits|
      requires Extends(data0, keys0, data, keys, Stamp(hits, classify, clock))
      modifies this
      ensures Valid()
      ensures count == |hits + PostHits(sub, post, Tickers)|
      ensures Extends(data0, keys0, data, keys, Stamp(hits + PostHits(sub, post, Tickers), classify, clock))
    {
      var title := CleanText(post.title);
      var body := CleanText(post.selftext);
      var fullText := title + " " + body;
      assert fullText == FullText(post);
      ghost var done: seq<Hit> := [];
      ghost var all := hits;
      count := n;
      for k := 0 to |Tickers|
        invariant Valid()
        invariant done == PostHits(sub, post, Tickers[..k]) && all == hits + done && count == |all|
        invariant Extends(data0, keys0, data, keys, Stamp(all, classify, clock))
      {
        var ticker := Tickers[k];
        PostHitsSnoc(sub, post, Tickers, k);
        if Mentions(fullText, ticker) {
          var verdict := Analyze(classify, fullText);
          var entry := Entry(ticker, verdict.sentiment, verdict.score, clock(count), sub, title);
          ghost var hit := HitOf(sub, post, ticker);
          assert entry == ToEntry(hit, classify, clock(|all|));
          ghost var data1, keys1 := data, keys;
          Append(ticker, entry);
          ExtendsStep(data0, keys0, data1, keys1, data, keys, all, hit, classify, clock);
          ConcatAssoc(hits, done, [hit]);
          done := done + [hit];
          all := all + [hit];
          count := count + 1;
        } else {
          assert done + [] == done;
        }
      }
      assert Tickers[..|Tickers|] == Tickers;
    }

    /** `get_sentiment` (main.py:75-76): the records of the upper-cased ticker,
        or none for a ticker without records; reading never adds a key. */
    function GetSentiment(ticker: string): (r: seq<Entry>)
      reads this
      ensures Upper(ticker) in data ==> r == data[Upper(ticker)]
      ensures Upper(ticker) !in data ==> r == []
      ensures Valid() ==> forall e :: e in r ==> e.ticker == Upper(ticker)
    {
      Lookup(data, Upper(ticker))
    }

    /** `get_trending` (main.py:79-81): at most ten tickers with their record
        counts, largest count first; tickers with equal counts in insertion
        order, and always the earliest inserted of them; every ticker left out
        has no more records than the last one listed. */
    function GetTrending(): (r: seq<Mention>)
      reads this
      requires Valid()
      ensures |r| == if |keys| < TrendingLimit then |keys| else TrendingLimit
      ensures forall m :: m in r ==> m.ticker in data && m.mentions == |data[m.ticker]| && m.mentions > 0
      ensures forall i, j :: 0 <= i < j < |r| ==> r[i].mentions >= r[j].mentions
      ensures forall c :: WithKey(r, MentionCount, c) <= WithKey(Tally(keys, data), MentionCount, c)
      ensures forall t :: t in data && (forall m :: m in r ==> m.ticker != t) ==>
                |r| == TrendingLimit && |data[t]| <= r[TrendingLimit - 1].mentions
    {
      var items := Items(keys, data);
      var r := MapSeq(Top(items, ItemSize, TrendingLimit), ToMention);
      TrendingFacts(keys, data);
      r
    }
  }

  /** The query ignores the case of its argument. */
  lemma GetSentimentIgnoresCase(store: SentimentData, ticker: string)
    ensures store.GetSentiment(ticker) == store.GetSentiment(Upper(ticker))
  {
    UpperIdempotent(ticker);
  }

  /** Upper-casing the example query gives the tracked ticker. */
  lemma UpperGme(t: string)
    requires t == "gme"
    ensures Upper(t) == "GME"
  {
  }

  /** The one-post example end to end: a fresh store, one cycle over the
      example listing, then a query in lower case returns the single GME
      record with the classifier's verdict, the subreddit and the title. */
  method MoonCycle(classify: string -> Verdict, clock: nat -> Timestamp) returns (r: seq<Entry>)
    requires classify("$GME to the moon ") == Verdict("POSITIVE", 0.97)
    ensures |r| == 1 && r[0].ticker == "GME"
    ensures r[0].sentiment == "POSITIVE" && r[0].score == 0.97
    ensures r[0].subreddit == "wallstreetbets" && r[0].text == "$GME to the moon"
  {
    var store := new SentimentData();
    store.ScrapeReddit(MoonListing, classify, clock);
    MoonScenario(classify, clock);
    UpperGme("gme");
    r := store.GetSentiment("gme");
    assert r[0] in r;
  }

  lemma ConcatAssoc<T>(a: seq<T>, b: seq<T>, c: seq<T>)
    ensures a + b + c == a + (b + c)
  {
  }

  /** `data` and `keys` are `data0` and `keys0` after appending the records `es`
      one by one: every list has grown by the records for its ticker, and the
      new keys follow the old ones in order of first record. */
  ghost predicate Extends(data0: map<string, seq<Entry>>, keys0: seq<string>,
                          data: map<string, seq<Entry>>, keys: seq<string>, es: seq<Entry>)
  {
    && (forall t :: Lookup(data, t) == Lookup(data0, t) + EntriesFor(es, t))
    && keys == keys0 + NewKeys(keys0, es)
  }

  /** One append of the scrape loop extends the run of records by one. */
  lemma ExtendsStep(data0: map<string, seq<Entry>>, keys0: seq<string>,
                    data1: map<string, seq<Entry>>, keys1: seq<string>,
                    data2: map<string, seq<Entry>>, keys2: seq<string>,
                    hits: seq<Hit>, h: Hit, classify: string -> Verdict, clock: nat -> Timestamp)
    requires Extends(data0, keys0, data1, keys1, Stamp(hits, classify, clock))
    requires h.ticker in data1 <==> h.ticker in keys1
    requires data2 == data1[h.ticker := Lookup(data1, h.ticker) + [ToEntry(h, classify, clock(|hits|))]]
    requires keys2 == if h.ticker in data1 then keys1 else keys1 + [h.ticker]
    ensures Extends(data0, keys0, data2, keys2, Stamp(hits + [h], classify, clock))
  {
    var e := ToEntry(h, classify, clock(|hits|));
    var es := Stamp(hits, classify, clock);
    StampSnoc(hits, h, classify, clock);
    LookupStep(data0, data1, data2, es, e);
    NewKeysStep(keys0, keys1, keys2, es, e, h.ticker in data1);
  }

  lemma LookupStep(data0: map<string, seq<Entry>>, data1: map<string, seq<Entry>>, data2: map<string, seq<Entry>>,
                   es: seq<Entry>, e: Entry)
    requires forall t :: Lookup(data1, t) == Lookup(data0, t) + EntriesFor(es, t)
    requires data2 == data1[e.ticker := Lookup(data1, e.ticker) + [e]]
    ensures forall t :: Lookup(data2, t) == Lookup(data0, t) + EntriesFor(es + [e], t)
  {
    forall t ensures Lookup(data2, t) == Lookup(data0, t) + EntriesFor(es + [e], t) {
      EntriesForSnoc(es, e, t);
      if t == e.ticker {
        assert Lookup(data2, t) == Lookup(data1, t) + [e];
        ConcatAssoc(Lookup(data0, t), EntriesFor(es, t), [e]);
      } else {
        assert Lookup(data2, t) == Lookup(data1, t);
        assert EntriesFor(es + [e], t) == EntriesFor(es, t) + [];
      }
    }
  }

  lemma NewKeysStep(keys0: seq<string>, keys1: seq<string>, keys2: seq<string>, es: seq<Entry>, e: Entry, known: bool)
    requires keys1 == keys0 + NewKeys(keys0, es)
    requires known <==> e.ticker in keys1
    requires keys2 == if known then keys1 else keys1 + [e.ticker]
    ensures keys2 == keys0 + NewKeys(keys0, es + [e])
  {
    assert (es + [e])[..|es|] == es;
  }

  /** The properties of the trending list, proved on the tally of the
      dictionary: sorting the items and then projecting them is sorting the
      projected rows, since the sort key is the record count. */
  lemma TrendingFacts(keys: seq<string>, data: map<string, seq<Entry>>)
    requires Distinct(keys)
    requires forall k :: k in data <==> k in keys
    requires forall k :: k in data ==> data[k] != []
    ensures var r := MapSeq(Top(Items(keys, data), ItemSize, TrendingLimit), ToMention);
            && |r| == (if |keys| < TrendingLimit then |keys| else TrendingLimit)
            && (forall m :: m in r ==> m.ticker in data && m.mentions == |data[m.ticker]| && m.mentions > 0)
            && (forall i, j :: 0 <= i < j < |r| ==> r[i].mentions >= r[j].mentions)
            && (forall c :: WithKey(r, MentionCount, c) <= WithKey(Tally(keys, data), MentionCount, c))
            && (forall t :: t in data && (forall m :: m in r ==> m.ticker != t) ==>
                  |r| == TrendingLimit && |data[t]| <= r[TrendingLimit - 1].mentions)
  {
    var items := Items(keys, data);
    var tally := Tally(keys, data);
    var r := MapSeq(Top(items, ItemSize, TrendingLimit), ToMention);
    TopMap(items, ToMention, ItemSize, MentionCount, TrendingLimit);
    assert r == Top(tally, MentionCount, TrendingLimit);
    TopFacts(tally, MentionCount, TrendingLimit);
    forall m | m in r ensures m.ticker in data && m.mentions == |data[m.ticker]| && m.mentions > 0 {
      assert m in tally;
      var i :| 0 <= i < |tally| && tally[i] == m;
      assert keys[i] in data;
    }
    forall t | t in data && (forall m :: m in r ==> m.ticker != t)
      ensures |r| == TrendingLimit && |data[t]| <= r[TrendingLimit - 1].mentions
    {
      var i :| 0 <= i < |keys| && keys[i] == t;
      var m := tally[i];
      assert m in tally && m !in r;
    }
  }
}
