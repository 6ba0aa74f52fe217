/**
  Callers of the two stores, proved from the stores' contracts alone: the
  documented catalog scenario (a scheme change migrates a website and moves
  its feed along), idempotent upserts, and the feed parser's
  check-then-insert loop over a feed's entries.
 */
module Scenarios {
  import opened Urls
  import opened Tables
  import SQLite3
  import Database

  /** A fresh store: a website (say `http://a.com`) and then a feed of it
      are both inserted. */
  method NewWebsiteAndFeedScenario(websiteUrl: Url, feedUrl: Url) returns (db: SQLite3.Database)
    ensures fresh(db)
    ensures db.websites == map[websiteUrl := SQLite3.Website("A", "en", "us")]
    ensures db.feeds == map[feedUrl := SQLite3.Feed("Feed A", websiteUrl)]
    ensures db.articles == map[] && db.parsedArticles == map[]
  {
    db := new SQLite3.Database(SQLite3.SchemaTables, map[], map[], map[], map[]);
    var n := db.InsertWebsite(websiteUrl, "A", "en", "us");
    assert n == 1;
    n := db.InsertFeed(feedUrl, websiteUrl, "Feed A");
    assert n == 1;
  }

  /** Then the website under another scheme (`https://a.com`): the update is
      a migration that rewrites one website row and one feed row, and
      returns 2. */
  method WebsiteMigrationScenario(scheme1: string, scheme2: string, rest: string, feedUrl: Url)
    returns (db: SQLite3.Database, n: nat)
    requires ':' !in scheme1 && ':' !in scheme2 && scheme1 != scheme2
    ensures n == 2
    ensures scheme2 + Separator + rest in db.websites && scheme1 + Separator + rest !in db.websites
    ensures |db.websites| == 1
    ensures feedUrl in db.feeds && db.feeds[feedUrl].website == scheme2 + Separator + rest
  {
    var oldUrl, newUrl := scheme1 + Separator + rest, scheme2 + Separator + rest;
    db := NewWebsiteAndFeedScenario(oldUrl, feedUrl);
    SchemeChangeMatches(scheme1, scheme2, rest);
    assert oldUrl in db.websites && newUrl !in db.websites;
    assert db.CheckIfWebsiteExists(newUrl, true);
    assert Referencing(db.feeds, SQLite3.FeedWebsite, oldUrl) == {feedUrl};
    assert Referencing(db.articles, SQLite3.ArticleWebsite, oldUrl) == {};
    ghost var w0, f0, a0 := db.websites, db.feeds, db.articles;
    ghost var from;
    n, from := db.UpdateWebsite(newUrl, "A", "en", "us");
    assert from.Some? && from.value in w0;
    assert from == Some(oldUrl);
    assert n == 1 + |Referencing(f0, SQLite3.FeedWebsite, oldUrl)| + |Referencing(a0, SQLite3.ArticleWebsite, oldUrl)|;
    assert n == 2;
    assert oldUrl !in db.websites && newUrl in db.websites && |db.websites| == 1;
    assert db.feeds == Repoint(f0, SQLite3.FeedWebsite, SQLite3.WithFeedWebsite, oldUrl, newUrl);
    assert db.feeds[feedUrl].website == newUrl;
  }

  /** A URL with another host or path is not the same entity: it is inserted
      beside the existing one instead of migrating it. */
  method DistinctRemainderScenario(db: SQLite3.Database, scheme1: string, rest1: string, scheme2: string, rest2: string)
    returns (n: nat)
    requires ':' !in scheme1 && ':' !in scheme2 && Find(rest1, Separator) == -1 && rest1 != rest2
    requires db.websites.Keys == {scheme1 + Separator + rest1}
    modifies db
    ensures n == 1
    ensures db.websites.Keys == {scheme1 + Separator + rest1, scheme2 + Separator + rest2}
    ensures |db.websites| == 2
  {
    SuffixMatchIffSameRemainder(scheme1, rest1, scheme2, rest2);
    n := db.InsertWebsite(scheme2 + Separator + rest2, "B", "en", "us");
  }

  /** Upserting the same website twice: inserted once, then updated in
      place; one row either way. */
  method RepeatedUpsertScenario(db: SQLite3.Database, url: Url, name: string, language: string, country: string)
    returns (first: nat, second: nat)
    requires !db.CheckIfWebsiteExists(url, true)
    modifies db
    ensures first == 1 && second == 1
    ensures db.websites == old(db.websites)[url := SQLite3.Website(name, language, country)]
    ensures |db.websites| == |old(db.websites)| + 1
    ensures db.feeds == old(db.feeds) && db.articles == old(db.articles)
  {
    ghost var from;
    first, from := db.UpdateWebsite(url, name, language, country);
    assert url !in old(db.websites);
    second, from := db.UpdateWebsite(url, name, language, country);
  }

  /** `links[j]` is the first occurrence of that link in `links`. */
  predicate FirstOccurrence(links: seq<Url>, j: int)
    requires 0 <= j < |links|
  {
    forall k :: 0 <= k < j ==> links[k] != links[j]
  }

  /** The articles table after `parse_feed` has handled the first `n`
      entries of a feed: each link not stored yet is inserted with the
      article parser's response, and a stored link is skipped. */
  ghost function StoredAfter(a: map<Url, Database.Article>, feedUrl: Url, links: seq<Url>,
                             statuses: seq<int>, contents: seq<string>, now: string, n: nat): map<Url, Database.Article>
    requires |statuses| == |links| && |contents| == |links| && n <= |links|
    decreases n
  {
    if n == 0 then a
    else
      var before := StoredAfter(a, feedUrl, links, statuses, contents, now, n - 1);
      if links[n - 1] in before then before
      else before[links[n - 1] := Database.Article(feedUrl, now, statuses[n - 1], contents[n - 1])]
  }

  /** After the first `n` entries the table holds the old keys plus those
      links. */
  lemma {:induction false} StoredAfterKeys(a: map<Url, Database.Article>, feedUrl: Url, links: seq<Url>,
                                           statuses: seq<int>, contents: seq<string>, now: string, n: nat)
    requires |statuses| == |links| && |contents| == |links| && n <= |links|
    ensures StoredAfter(a, feedUrl, links, statuses, contents, now, n).Keys == a.Keys + set j | 0 <= j < n :: links[j]
  {
    if n > 0 {
      StoredAfterKeys(a, feedUrl, links, statuses, contents, now, n - 1);
      assert (set j | 0 <= j < n :: links[j]) == (set j | 0 <= j < n - 1 :: links[j]) + {links[n - 1]};
    }
  }

  /** Rows stored before the feed was handled are never overwritten. */
  lemma {:induction false} StoredAfterKeepsRows(a: map<Url, Database.Article>, feedUrl: Url, links: seq<Url>,
                                                statuses: seq<int>, contents: seq<string>, now: string, n: nat)
    requires |statuses| == |links| && |contents| == |links| && n <= |links|
    ensures forall u :: u in a ==> u in StoredAfter(a, feedUrl, links, statuses, contents, now, n)
                                   && StoredAfter(a, feedUrl, links, statuses, contents, now, n)[u] == a[u]
  {
    if n > 0 {
      StoredAfterKeepsRows(a, feedUrl, links, statuses, contents, now, n - 1);
    }
  }

  /** A link that was not stored holds the response of its first occurrence
      in the feed. */
  lemma {:induction false} StoredAfterFirstResponse(a: map<Url, Database.Article>, feedUrl: Url, links: seq<Url>,
                                                    statuses: seq<int>, contents: seq<string>, now: string, n: nat, j: nat)
    requires |statuses| == |links| && |contents| == |links| && j < n <= |links|
    requires links[j] !in a && FirstOccurrence(links, j)
    ensures links[j] in StoredAfter(a, feedUrl, links, statuses, contents, now, n)
    ensures StoredAfter(a, feedUrl, links, statuses, contents, now, n)[links[j]]
            == Database.Article(feedUrl, now, statuses[j], contents[j])
  {
    var before := StoredAfter(a, feedUrl, links, statuses, contents, now, n - 1);
    if j == n - 1 {
      StoredAfterKeys(a, feedUrl, links, statuses, contents, now, n - 1);
      assert links[j] !in (set k | 0 <= k < n - 1 :: links[k]);
      assert links[j] !in before;
    } else {
      StoredAfterFirstResponse(a, feedUrl, links, statuses, contents, now, n - 1, j);
      assert links[j] in before;
    }
  }

  /** `parse_feed`'s use of the store: each entry is inserted only after
      `check_if_article_exists` says it is new, so `insert_article` never
      meets its primary key, and every entry ends up stored. The responses of
      the article parser are inputs here. */
  method StoreFeedEntries(db: Database.Database, feedUrl: Url, links: seq<Url>,
                          statuses: seq<int>, contents: seq<string>, now: string)
    requires |statuses| == |links| && |contents| == |links|
    modifies db
    ensures db.articles == StoredAfter(old(db.articles), feedUrl, links, statuses, contents, now, |links|)
    ensures db.articles.Keys == old(db.articles).Keys + set j | 0 <= j < |links| :: links[j]
    ensures forall u :: u in old(db.articles) ==> db.articles[u] == old(db.articles[u])
    ensures forall j :: 0 <= j < |links| && links[j] !in old(db.articles) && FirstOccurrence(links, j) ==>
              db.articles[links[j]] == Database.Article(feedUrl, now, statuses[j], contents[j])
    ensures db.feeds == old(db.feeds) && db.tables == old(db.tables)
  {
    var i := 0;
    while i < |links|
      invariant 0 <= i <= |links|
      invariant db.articles == StoredAfter(old(db.articles), feedUrl, links, statuses, contents, now, i)
      invariant db.feeds == old(db.feeds) && db.tables == old(db.tables)
    {
      if !db.CheckIfArticleExists(links[i]) {
        var raised := db.InsertArticle(links[i], feedUrl, statuses[i], contents[i], now);
        assert !raised;
      }
      i := i + 1;
    }
    StoredAfterKeys(old(db.articles), feedUrl, links, statuses, contents, now, |links|);
    StoredAfterKeepsRows(old(db.articles), feedUrl, links, statuses, contents, now, |links|);
    forall j | 0 <= j < |links| && links[j] !in old(db.articles) && FirstOccurrence(links, j)
      ensures db.articles[links[j]] == Database.Article(feedUrl, now, statuses[j], contents[j])
    {
      StoredAfterFirstResponse(old(db.articles), feedUrl, links, statuses, contents, now, |links|, j);
    }
  }
}
