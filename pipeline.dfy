/** One refresh cycle of main.py:54-72 described by pure reference functions:
    which (post, ticker) pairs match, in which order, and which entries they
    produce. The method that performs the cycle on the store is
    `Store.SentimentData.ScrapeReddit`; its contract is stated with these
    functions. */
module Pipeline {
  import opened Text
  import opened Matcher

  /** The tracked tickers, in the order every post is tested against them (main.py:14). */
  const Tickers: seq<string> := ["GME", "AMC", "TSLA", "NVDA", "AAPL", "PLTR"]
  /** The subreddits polled, in order (main.py:15). */
  const Subreddits: seq<string> := ["wallstreetbets", "stocks", "pennystocks"]
  /** Posts taken from each subreddit's hot listing (main.py:16). */
  const PostLimit: nat := 100
  /** Characters of text the classifier is given (main.py:51). */
  const ClassifierInputLimit: nat := 512

  /** The ISO-8601 text of the clock reading; never inspected by the pipeline. */
  type Timestamp = string

  /** A Reddit submission: its title and its body text. */
  datatype Post = Post(title: string, selftext: string)

  /** What the sentiment classifier returns: a label and a confidence score.
      The score is carried through unchanged; no arithmetic is done on it. */
  datatype Verdict = Verdict(sentiment: string, score: real)

  /** One stored sentiment record (main.py:64-71). */
  datatype Entry = Entry(ticker: string, sentiment: string, score: real, time: Timestamp,
                         subreddit: string, text: string)

  /** A (post, ticker) pair that matched, before classification and time-stamping. */
  datatype Hit = Hit(ticker: string, subreddit: string, title: string, fullText: string)

  predicate Distinct<T(==)>(xs: seq<T>) {
    forall i, j :: 0 <= i < j < |xs| ==> xs[i] != xs[j]
  }

  /** The first `n` elements of `xs`, or all of them if there are fewer (Python's `xs[:n]`). */
  function Take<T>(xs: seq<T>, n: nat): (r: seq<T>)
    ensures |r| == (if |xs| < n then |xs| else n)
    ensures r <= xs
  {
    if |xs| <= n then xs else xs[..n]
  }

  /** The posts a cycle reads from one subreddit: the first `PostLimit` of its
      hot listing (main.py:56-57). */
  function Hot(listing: string -> seq<Post>, sub: string): (r: seq<Post>)
    ensures r <= listing(sub)
    ensures |r| == if |listing(sub)| < PostLimit then |listing(sub)| else PostLimit
  {
    Take(listing(sub), PostLimit)
  }

  /** `analyze_post` (main.py:50-52): the classifier applied to the first 512
      characters of the text. */
  function Analyze(classify: string -> Verdict, text: string): (r: Verdict)
    ensures exists p :: p <= text && |p| == (if |text| < ClassifierInputLimit then |text| else ClassifierInputLimit)
                        && r == classify(p)
    ensures |text| <= ClassifierInputLimit ==> r == classify(text)
  {
    classify(Take(text, ClassifierInputLimit))
  }

  /** The text a post is matched against: cleaned title, a space, cleaned body (main.py:58-60). */
  function FullText(post: Post): (r: string)
    ensures '\n' !in r
    ensures |r| == |CleanText(post.title)| + 1 + |CleanText(post.selftext)|
    ensures r[..|CleanText(post.title)|] == CleanText(post.title) && r[|CleanText(post.title)|] == ' '
    ensures r[|CleanText(post.title)| + 1..] == CleanText(post.selftext)
  {
    var title := CleanText(post.title);
    var body := CleanText(post.selftext);
    var r := title + " " + body;
    assert r == (title + " ") + body && title + " " == title + [' '];
    r
  }

  function HitOf(sub: string, post: Post, ticker: string): Hit {
    Hit(ticker, sub, CleanText(post.title), FullText(post))
  }

  /** The matches of one post against `tickers`, in ticker order (main.py:61-62). */
  function PostHits(sub: string, post: Post, tickers: seq<string>): (r: seq<Hit>)
    ensures |r| <= |tickers|
    ensures forall h :: h in r ==> h == HitOf(sub, post, h.ticker) && h.ticker in tickers && Mentions(h.fullText, h.ticker)
    decreases |tickers|
  {
    if tickers == [] then []
    else
      var t := tickers[|tickers| - 1];
      PostHits(sub, post, tickers[..|tickers| - 1])
        + (if Mentions(FullText(post), t) then [HitOf(sub, post, t)] else [])
  }

  /** The matches of a subreddit's posts, post by post (main.py:57-62). */
  function PostsHits(sub: string, posts: seq<Post>, tickers: seq<string>): (r: seq<Hit>)
    ensures forall h :: h in r ==> h.subreddit == sub && h.ticker in tickers && Mentions(h.fullText, h.ticker)
    decreases |posts|
  {
    if posts == [] then []
    else PostsHits(sub, posts[..|posts| - 1], tickers) + PostHits(sub, posts[|posts| - 1], tickers)
  }

  /** The matches of a whole cycle, subreddit by subreddit (main.py:55-62). */
  function CycleHits(subs: seq<string>, listing: string -> seq<Post>, tickers: seq<string>): (r: seq<Hit>)
    ensures forall h :: h in r ==> h.subreddit in subs && h.ticker in tickers && Mentions(h.fullText, h.ticker)
    decreases |subs|
  {
    if subs == [] then []
    else
      var sub := subs[|subs| - 1];
      CycleHits(subs[..|subs| - 1], listing, tickers) + PostsHits(sub, Hot(listing, sub), tickers)
  }

  /** The record stored for a match (main.py:63-71). */
  function ToEntry(h: Hit, classify: string -> Verdict, time: Timestamp): (r: Entry)
    ensures Describes(r, h, classify) && r.time == time
  {
    var v := Analyze(classify, h.fullText);
    Entry(h.ticker, v.sentiment, v.score, time, h.subreddit, h.title)
  }

  /** The records of a cycle's matches; the `i`-th record of the cycle reads the clock as `clock(i)`. */
  function Stamp(hs: seq<Hit>, classify: string -> Verdict, clock: nat -> Timestamp): (r: seq<Entry>)
    ensures |r| == |hs|
  {
    seq(|hs|, i requires 0 <= i < |hs| => ToEntry(hs[i], classify, clock(i)))
  }

  /** The matches for ticker `t`, in order. */
  function HitsFor(hs: seq<Hit>, t: string): (r: seq<Hit>)
    decreases |hs|
  {
    if hs == [] then []
    else HitsFor(hs[..|hs| - 1], t) + (if hs[|hs| - 1].ticker == t then [hs[|hs| - 1]] else [])
  }

  /** The records for ticker `t`, in order. */
  function EntriesFor(es: seq<Entry>, t: string): (r: seq<Entry>)
    decreases |es|
  {
    if es == [] then []
    else EntriesFor(es[..|es| - 1], t) + (if es[|es| - 1].ticker == t then [es[|es| - 1]] else [])
  }

  /** Reference definition, independent of the ticker loop: every post of the
      cycle whose text mentions `t`, subreddit by subreddit and post by post. */
  function MentioningIn(sub: string, posts: seq<Post>, t: string): seq<Hit>
    decreases |posts|
  {
    if posts == [] then []
    else
      var post := posts[|posts| - 1];
      MentioningIn(sub, posts[..|posts| - 1], t)
        + (if Mentions(FullText(post), t) then [HitOf(sub, post, t)] else [])
  }

  function Mentioning(subs: seq<string>, listing: string -> seq<Post>, t: string): seq<Hit>
    decreases |subs|
  {
    if subs == [] then []
    else
      var sub := subs[|subs| - 1];
      Mentioning(subs[..|subs| - 1], listing, t) + MentioningIn(sub, Hot(listing, sub), t)
  }

  /** Record `e` is the one the pipeline builds for match `h`: same ticker,
      subreddit and cleaned title, and the classifier's verdict on the first
      512 characters of the combined text. */
  predicate Describes(e: Entry, h: Hit, classify: string -> Verdict) {
    && e.ticker == h.ticker
    && e.subreddit == h.subreddit
    && e.text == h.title
    && Verdict(e.sentiment, e.score) == Analyze(classify, h.fullText)
  }

  lemma InInitOrLast<T>(xs: seq<T>, x: T)
    requires xs != []
    ensures x in xs <==> x in xs[..|xs| - 1] || x == xs[|xs| - 1]
  {
    if x in xs && x != xs[|xs| - 1] {
      var i :| 0 <= i < |xs| && xs[i] == x;
      assert xs[..|xs| - 1][i] == x;
    }
  }

  lemma PostHitsSnoc(sub: string, post: Post, tickers: seq<string>, k: nat)
    requires k < |tickers|
    ensures PostHits(sub, post, tickers[..k + 1]) == PostHits(sub, post, tickers[..k])
              + (if Mentions(FullText(post), tickers[k]) then [HitOf(sub, post, tickers[k])] else [])
  {
    assert tickers[..k + 1][..k] == tickers[..k];
  }

  lemma PostsHitsSnoc(sub: string, posts: seq<Post>, tickers: seq<string>, p: nat)
    requires p < |posts|
    ensures PostsHits(sub, posts[..p + 1], tickers) == PostsHits(sub, posts[..p], tickers) + PostHits(sub, posts[p], tickers)
  {
    assert posts[..p + 1][..p] == posts[..p];
  }

  lemma CycleHitsSnoc(subs: seq<string>, listing: string -> seq<Post>, tickers: seq<string>, s: nat)
    requires s < |subs|
    ensures CycleHits(subs[..s + 1], listing, tickers)
         == CycleHits(subs[..s], listing, tickers) + PostsHits(subs[s], Hot(listing, subs[s]), tickers)
  {
    assert subs[..s + 1][..s] == subs[..s];
  }

  lemma InOptional<T>(y: T, x: T, b: bool)
    requires y in (if b then [x] else [])
    ensures b && y == x
  {
  }

  lemma DistinctLast<T>(xs: seq<T>)
    requires xs != [] && Distinct(xs)
    ensures Distinct(xs[..|xs| - 1]) && xs[|xs| - 1] !in xs[..|xs| - 1]
  {
  }

  lemma {:induction false} HitsForAppend(xs: seq<Hit>, ys: seq<Hit>, t: string)
    ensures HitsFor(xs + ys, t) == HitsFor(xs, t) + HitsFor(ys, t)
    decreases |ys|
  {
    if ys == [] {
      assert xs + ys == xs;
    } else {
      var zs := xs + ys;
      assert zs[..|zs| - 1] == xs + ys[..|ys| - 1];
      HitsForAppend(xs, ys[..|ys| - 1], t);
    }
  }

  /** With distinct tickers, one post yields exactly one match for `t` when it
      mentions `t` and `t` is tracked, and none otherwise. */
  lemma {:induction false} PostHitsFor(sub: string, post: Post, tickers: seq<string>, t: string)
    requires Distinct(tickers)
    ensures HitsFor(PostHits(sub, post, tickers), t)
         == if t in tickers && Mentions(FullText(post), t) then [HitOf(sub, post, t)] else []
    decreases |tickers|
  {
    if tickers != [] {
      var init := tickers[..|tickers| - 1];
      var last := tickers[|tickers| - 1];
      var mentioned := Mentions(FullText(post), last);
      var tail := if mentioned then [HitOf(sub, post, last)] else [];
      assert PostHits(sub, post, tickers) == PostHits(sub, post, init) + tail;
      DistinctLast(tickers);
      PostHitsFor(sub, post, init, t);
      HitsForAppend(PostHits(sub, post, init), tail, t);
      InInitOrLast(tickers, t);
      if last == t {
        DistinctLast(tickers);
        if mentioned {
          HitsForSnoc([], HitOf(sub, post, last), t);
        }
      } else if mentioned {
        HitsForSnoc([], HitOf(sub, post, last), t);
      }
    }
  }

  lemma {:induction false} PostsHitsFor(sub: string, posts: seq<Post>, tickers: seq<string>, t: string)
    requires Distinct(tickers)
    ensures HitsFor(PostsHits(sub, posts, tickers), t) == if t in tickers then MentioningIn(sub, posts, t) else []
    decreases |posts|
  {
    if posts != [] {
      var init := posts[..|posts| - 1];
      PostsHitsFor(sub, init, tickers, t);
      HitsForAppend(PostsHits(sub, init, tickers), PostHits(sub, posts[|posts| - 1], tickers), t);
      PostHitsFor(sub, posts[|posts| - 1], tickers, t);
    }
  }

  /** The matches of a cycle for a tracked ticker are exactly the posts that
      mention it, one each, in the order the cycle visits them; an untracked
      ticker gets none. */
  lemma {:induction false} CycleHitsFor(subs: seq<string>, listing: string -> seq<Post>, tickers: seq<string>, t: string)
    requires Distinct(tickers)
    ensures HitsFor(CycleHits(subs, listing, tickers), t) == if t in tickers then Mentioning(subs, listing, t) else []
    decreases |subs|
  {
    if subs != [] {
      var init := subs[..|subs| - 1];
      var sub := subs[|subs| - 1];
      CycleHitsFor(init, listing, tickers, t);
      HitsForAppend(CycleHits(init, listing, tickers), PostsHits(sub, Hot(listing, sub), tickers), t);
      PostsHitsFor(sub, Hot(listing, sub), tickers, t);
    }
  }

  lemma StampSnoc(hs: seq<Hit>, h: Hit, classify: string -> Verdict, clock: nat -> Timestamp)
    ensures Stamp(hs + [h], classify, clock) == Stamp(hs, classify, clock) + [ToEntry(h, classify, clock(|hs|))]
  {
  }

  lemma EntriesForSnoc(es: seq<Entry>, e: Entry, t: string)
    ensures EntriesFor(es + [e], t) == EntriesFor(es, t) + (if e.ticker == t then [e] else [])
  {
    assert (es + [e])[..|es|] == es;
  }

  lemma HitsForSnoc(hs: seq<Hit>, h: Hit, t: string)
    ensures HitsFor(hs + [h], t) == HitsFor(hs, t) + (if h.ticker == t then [h] else [])
  {
    assert (hs + [h])[..|hs|] == hs;
  }

  /** The records of ticker `t` correspond one to one, in order, to the matches
      of `t`, and each describes its match. */
  lemma {:induction false} EntriesForStamp(hs: seq<Hit>, classify: string -> Verdict, clock: nat -> Timestamp, t: string)
    ensures |EntriesFor(Stamp(hs, classify, clock), t)| == |HitsFor(hs, t)|
    ensures forall j :: 0 <= j < |HitsFor(hs, t)| ==>
              Describes(EntriesFor(Stamp(hs, classify, clock), t)[j], HitsFor(hs, t)[j], classify)
    decreases |hs|
  {
    if hs != [] {
      var init := hs[..|hs| - 1];
      var h := hs[|hs| - 1];
      assert hs == init + [h];
      EntriesForStamp(init, classify, clock, t);
      StampSnoc(init, h, classify, clock);
      EntriesForSnoc(Stamp(init, classify, clock), ToEntry(h, classify, clock(|init|)), t);
      HitsForSnoc(init, h, t);
    }
  }

  /** What one cycle records for ticker `t`: for a tracked ticker, one record
      per post that mentions it, in visiting order, each carrying that post's
      subreddit, cleaned title and classifier verdict; for any other ticker,
      nothing. */
  lemma CycleEntriesFor(listing: string -> seq<Post>, classify: string -> Verdict, clock: nat -> Timestamp, t: string)
    ensures var es := EntriesFor(Stamp(CycleHits(Subreddits, listing, Tickers), classify, clock), t);
            var ms := if t in Tickers then Mentioning(Subreddits, listing, t) else [];
            |es| == |ms| && forall j :: 0 <= j < |ms| ==> Describes(es[j], ms[j], classify)
  {
    assert Distinct(Tickers);
    CycleHitsFor(Subreddits, listing, Tickers, t);
    EntriesForStamp(CycleHits(Subreddits, listing, Tickers), classify, clock, t);
  }

  /** Every match in the reference list for `t` is a post mentioning `t`. */
  lemma {:induction false} MentioningFacts(subs: seq<string>, listing: string -> seq<Post>, t: string)
    ensures forall h :: h in Mentioning(subs, listing, t) ==>
              h.ticker == t && h.subreddit in subs && Mentions(h.fullText, t)
    decreases |subs|
  {
    if subs != [] {
      var init := subs[..|subs| - 1];
      var sub := subs[|subs| - 1];
      MentioningFacts(init, listing, t);
      MentioningInFacts(sub, Hot(listing, sub), t);
    }
  }

  lemma {:induction false} MentioningInFacts(sub: string, posts: seq<Post>, t: string)
    ensures forall h :: h in MentioningIn(sub, posts, t) ==>
              h.ticker == t && h.subreddit == sub && Mentions(h.fullText, t)
    decreases |posts|
  {
    if posts != [] {
      var post := posts[|posts| - 1];
      var init := MentioningIn(sub, posts[..|posts| - 1], t);
      MentioningInFacts(sub, posts[..|posts| - 1], t);
      var mentioned := Mentions(FullText(post), t);
      var tail := if mentioned then [HitOf(sub, post, t)] else [];
      assert MentioningIn(sub, posts, t) == init + tail;
      forall h: Hit | h in init + tail ensures h.ticker == t && h.subreddit == sub && Mentions(h.fullText, t) {
        if h !in init {
          InOptional(h, HitOf(sub, post, t), mentioned);
        }
      }
    }
  }

  lemma MentioningSnoc(subs: seq<string>, listing: string -> seq<Post>, t: string, s: nat)
    requires s < |subs|
    ensures Mentioning(subs[..s + 1], listing, t)
         == Mentioning(subs[..s], listing, t) + MentioningIn(subs[s], Hot(listing, subs[s]), t)
  {
    assert subs[..s + 1][..s] == subs[..s];
  }

  /** The matches of three subreddits, subreddit by subreddit. */
  lemma MentioningThree(subs: seq<string>, listing: string -> seq<Post>, t: string)
    requires |subs| == 3
    ensures Mentioning(subs, listing, t) == MentioningIn(subs[0], Hot(listing, subs[0]), t)
              + MentioningIn(subs[1], Hot(listing, subs[1]), t) + MentioningIn(subs[2], Hot(listing, subs[2]), t)
  {
    MentioningFirst(subs, listing, t);
    MentioningSnoc(subs, listing, t, 1);
    MentioningSnoc(subs, listing, t, 2);
    assert subs[..3] == subs;
  }

  lemma MentioningFirst(subs: seq<string>, listing: string -> seq<Post>, t: string)
    requires subs != []
    ensures Mentioning(subs[..1], listing, t) == MentioningIn(subs[0], Hot(listing, subs[0]), t)
  {
    assert subs[..1][..0] == [];
  }

  lemma MentioningInOne(sub: string, post: Post, t: string)
    ensures MentioningIn(sub, [post], t) == if Mentions(FullText(post), t) then [HitOf(sub, post, t)] else []
  {
    assert [post][..0] == [];
  }

  /** When only the first subreddit lists anything, and that is one post, the
      cycle's matches for `t` are that post if it mentions `t`. */
  lemma MentioningOnePost(subs: seq<string>, listing: string -> seq<Post>, post: Post, t: string)
    requires |subs| == 3
    requires listing(subs[0]) == [post]
    requires listing(subs[1]) == [] && listing(subs[2]) == []
    ensures Mentioning(subs, listing, t)
         == if Mentions(FullText(post), t) then [HitOf(subs[0], post, t)] else []
  {
    MentioningThree(subs, listing, t);
    MentioningInOne(subs[0], post, t);
    assert Hot(listing, subs[0]) == [post];
    assert Hot(listing, subs[1]) == [] && Hot(listing, subs[2]) == [];
  }

  /** The example title is already clean. */
  lemma MoonTitle(title: string)
    requires title == "$GME to the moon"
    ensures CleanText(title) == title
  {
    CleanTextFixed(title);
  }

  /** The example text mentions `GME`; the other two clauses only spell out the
      example's string literals for the scenario lemma. */
  lemma MoonMentions(title: string)
    requires title == "$GME to the moon"
    ensures Mentions(title + " ", "GME")
    ensures title + " " == "$GME to the moon "
    ensures Take(title + " ", ClassifierInputLimit) == title + " "
  {
    var upper := Upper(title + " ");
    assert upper[1] == 'G' && upper[2] == 'M' && upper[3] == 'E';
    assert upper[1..4] == "GME";
    assert OccursAt("GME", upper, 1);
  }

  /** A listing whose only post is in the first subreddit: title `$GME to the moon`, empty body. */
  function MoonListing(sub: string): seq<Post> {
    if sub == "wallstreetbets" then [Post("$GME to the moon", "")] else []
  }

  /** When only the first subreddit lists anything, one post mentioning the
      tracked ticker `t`, the cycle records one entry for `t`, built from that post. */
  lemma OnePostEntries(listing: string -> seq<Post>, post: Post, t: string,
                       classify: string -> Verdict, clock: nat -> Timestamp)
    requires t in Tickers && Mentions(FullText(post), t)
    requires listing(Subreddits[0]) == [post]
    requires listing(Subreddits[1]) == [] && listing(Subreddits[2]) == []
    ensures var es := EntriesFor(Stamp(CycleHits(Subreddits, listing, Tickers), classify, clock), t);
            && |es| == 1
            && es[0].ticker == t && es[0].subreddit == Subreddits[0] && es[0].text == CleanText(post.title)
            && Verdict(es[0].sentiment, es[0].score) == Analyze(classify, FullText(post))
  {
    MentioningOnePost(Subreddits, listing, post, t);
    CycleEntriesFor(listing, classify, clock, t);
  }

  /** Spells out the example listing on the configured subreddits for the
      scenario lemma. */
  lemma MoonListingFacts(title: string)
    requires title == "$GME to the moon"
    ensures Subreddits[0] == "wallstreetbets"
    ensures MoonListing(Subreddits[0]) == [Post(title, "")]
    ensures MoonListing(Subreddits[1]) == [] && MoonListing(Subreddits[2]) == []
  {
  }

  /** A post with an empty body is matched on its clean title followed by a space. */
  lemma BodylessFullText(title: string)
    requires CleanText(title) == title
    ensures FullText(Post(title, "")) == title + " "
  {
    CleanTextBlank("");
    assert title + " " + "" == title + " ";
  }

  /** The one-post cycle for a post with a clean title and an empty body. */
  lemma BodylessEntries(listing: string -> seq<Post>, title: string, t: string,
                        classify: string -> Verdict, clock: nat -> Timestamp)
    requires CleanText(title) == title && t in Tickers && Mentions(title + " ", t)
    requires listing(Subreddits[0]) == [Post(title, "")]
    requires listing(Subreddits[1]) == [] && listing(Subreddits[2]) == []
    ensures var es := EntriesFor(Stamp(CycleHits(Subreddits, listing, Tickers), classify, clock), t);
            && |es| == 1 && es[0].subreddit == Subreddits[0] && es[0].text == title
            && Verdict(es[0].sentiment, es[0].score) == Analyze(classify, title + " ")
  {
    BodylessFullText(title);
    OnePostEntries(listing, Post(title, ""), t, classify, clock);
  }

  /** With that listing and a classifier that calls its text positive with
      confidence 0.97, one cycle records exactly one entry for `GME`, carrying
      that verdict, the subreddit and the title. */
  lemma MoonScenario(classify: string -> Verdict, clock: nat -> Timestamp)
    requires classify("$GME to the moon ") == Verdict("POSITIVE", 0.97)
    ensures var es := EntriesFor(Stamp(CycleHits(Subreddits, MoonListing, Tickers), classify, clock), "GME");
            && |es| == 1
            && es[0].sentiment == "POSITIVE" && es[0].score == 0.97
            && es[0].subreddit == "wallstreetbets" && es[0].text == "$GME to the moon"
  {
    var title := "$GME to the moon";
    MoonTitle(title);
    MoonMentions(title);
    MoonListingFacts(title);
    BodylessEntries(MoonListing, title, "GME", classify, clock);
  }
}
