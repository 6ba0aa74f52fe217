/**
  The older catalog store of `Database.py`, the one the feed parser uses:
  two tables (feeds, articles), existence queries, article insertion,
  insert-if-absent for feeds, and feed upsert with scheme migration that
  repoints `articles.feed_url`.

  Each method is one atomic transition of the tables (the per-statement
  commits are not modelled). LIKE is read as a literal, case-sensitive match.
 */
module Database {
  import opened Urls
  import opened Tables

  /** Row of `feeds` without its key. */
  datatype Feed = Feed(name: string, language: string, country: string)
  /** Row of `articles` without its key; `feedUrl` refers to `feeds.url`,
      `time` is the insert timestamp, the rest is the fetched response. */
  datatype Article = Article(feedUrl: Url, time: string, responseStatus: int, responseContent: string)

  /** The two tables `_create_tables` declares. */
  const SchemaTables: set<string> := {"feeds", "articles"}

  /** The whole schema is present. */
  predicate TablesExist(tables: set<string>)
  {
    SchemaTables <= tables
  }

  /** The tables after `_create_tables`: both `CREATE TABLE IF NOT EXISTS`
      statements run. */
  function Created(tables: set<string>): set<string>
  {
    tables + SchemaTables
  }

  /** `_create_tables` completes the schema, keeps what exists, and is
      idempotent, so reopening a store is safe. */
  lemma CreateTablesCompletesSchema(tables: set<string>)
    ensures TablesExist(Created(tables))
    ensures tables <= Created(tables)
    ensures TablesExist(tables) ==> Created(tables) == tables
    ensures Created(Created(tables)) == Created(tables)
  {
  }

  function ArticleFeed(a: Article): Url { a.feedUrl }
  function WithArticleFeed(a: Article, u: Url): Article { a.(feedUrl := u) }

  class Database {
    /** Names of the tables present in the store file. */
    var tables: set<string>
    var feeds: map<Url, Feed>
    var articles: map<Url, Article>

    /** Every article names an existing feed. SQLite does not enforce this
        here: the connection never turns foreign keys on. */
    ghost predicate ReferencesValid()
      reads this
    {
      RefersInto(articles, ArticleFeed, feeds.Keys, {})
    }

    /** `__init__`: open a store file holding `fileTables` and these rows, and
        create the schema when `_check_if_tables_exist` says it is missing.
        A file holds rows only in the tables it has. */
    constructor (fileTables: set<string>, fileFeeds: map<Url, Feed>, fileArticles: map<Url, Article>)
      requires "feeds" !in fileTables ==> fileFeeds == map[]
      requires "articles" !in fileTables ==> fileArticles == map[]
      ensures tables == if TablesExist(fileTables) then fileTables else Created(fileTables)
      ensures CheckIfTablesExist()
      ensures feeds == fileFeeds && articles == fileArticles
    {
      tables, feeds, articles := fileTables, fileFeeds, fileArticles;
      new;
      if !CheckIfTablesExist() {
        CreateTables();
      }
    }

    /** `_create_tables`. */
    method CreateTables()
      modifies this`tables
      ensures tables == Created(old(tables))
      ensures CheckIfTablesExist()
    {
      tables := tables + {"feeds"};
      tables := tables + {"articles"};
    }

    /** `_check_if_tables_exist`: the two lookups in `sqlite_master`, the
        first returning False when `feeds` is missing, succeed exactly when
        the whole schema is present. */
    function CheckIfTablesExist(): (r: bool)
      reads this
      ensures r <==> TablesExist(tables)
    {
      "feeds" in tables && "articles" in tables
    }

    /** `check_if_article_exists`: `url = ?` is the exact existence query,
        so a hit is also a hit of the `ignore_protocol` query. */
    function CheckIfArticleExists(url: Url): (r: bool)
      reads this
      ensures r <==> ItemExists(articles.Keys, url, false)
      ensures r ==> ItemExists(articles.Keys, url, true)
    {
      ExactMatchIsSuffixMatch(articles.Keys, url);
      url in articles
    }

    /** `_check_if_feed_exists`: a stored URL is always found, and the exact
        query finds nothing else. */
    function CheckIfFeedExists(url: Url, ignoreProtocol: bool): (r: bool)
      reads this
      ensures url in feeds ==> r
      ensures !ignoreProtocol ==> (r <==> url in feeds)
    {
      ExactMatchIsSuffixMatch(feeds.Keys, url);
      ItemExists(feeds.Keys, url, ignoreProtocol)
    }

    /** `get_all_feed_urls`. */
    method GetAllFeedUrls() returns (urls: seq<Url>)
      ensures |urls| == |feeds|
      ensures forall u :: u in urls <==> u in feeds
      ensures forall i, j :: 0 <= i < j < |urls| ==> urls[i] != urls[j]
    {
      urls := ListKeys(feeds);
    }

    /** `insert_article`: a plain INSERT with no existence check. When the URL
        is already a key the primary key refuses it and SQLite raises an
        IntegrityError; the feed parser asks `check_if_article_exists` first,
        so on its path this never happens. */
    method InsertArticle(url: Url, feedUrl: Url, responseStatus: int, responseContent: string, now: string)
      returns (raisedIntegrityError: bool)
      modifies this
      ensures raisedIntegrityError <==> old(CheckIfArticleExists(url))
      ensures raisedIntegrityError ==> unchanged(this)
      ensures !raisedIntegrityError ==>
                && articles == old(articles)[url := Article(feedUrl, now, responseStatus, responseContent)]
                && |articles| == |old(articles)| + 1
                && tables == old(tables) && feeds == old(feeds)
      ensures old(ReferencesValid()) && feedUrl in feeds ==> ReferencesValid()
    {
      if url in articles {
        return true;
      }
      articles := articles[url := Article(feedUrl, now, responseStatus, responseContent)];
      raisedIntegrityError := false;
    }

    /** `insert_feed`: insert unless a key shares the URL's scheme-agnostic
        suffix; return the number of rows inserted. */
    method InsertFeed(url: Url, name: string, language: string, country: string) returns (n: nat)
      modifies this
      ensures old(CheckIfFeedExists(url, true)) ==> n == 0 && unchanged(this)
      ensures !old(CheckIfFeedExists(url, true)) ==>
                && n == 1 && url !in old(feeds)
                && feeds == old(feeds)[url := Feed(name, language, country)]
                && |feeds| == |old(feeds)| + 1
                && tables == old(tables) && articles == old(articles)
      ensures old(ReferencesValid()) ==> ReferencesValid()
    {
      if !CheckIfFeedExists(url, true) {
        ExactMatchIsSuffixMatch(feeds.Keys, url);   // so the INSERT affects one row
        feeds := feeds[url := Feed(name, language, country)];
        n := 1;
      } else {
        n := 0;
      }
    }

    /** `update_feed`. Insert when no key shares the scheme-agnostic suffix;
        when the URL is a key overwrite `name`, `language` and `country` and
        return the UPDATE's rowcount, 1; otherwise migrate: rewrite the old
        key's row, then repoint `articles.feed_url`, returning 1 plus the
        cascade count. */
    method UpdateFeed(url: Url, name: string, language: string, country: string)
      returns (n: nat, ghost migratedFrom: Option<Url>)
      modifies this
      ensures tables == old(tables)
      ensures !old(CheckIfFeedExists(url, true)) ==>
                && n == 1 && migratedFrom == None
                && feeds == old(feeds)[url := Feed(name, language, country)]
                && articles == old(articles)
      ensures url in old(feeds) ==>
                && n == 1 && migratedFrom == None
                && feeds == old(feeds)[url := Feed(name, language, country)]
                && articles == old(articles)
      ensures old(CheckIfFeedExists(url, true)) && url !in old(feeds) ==>
                && migratedFrom.Some?
                && var prev := migratedFrom.value;
                && prev in old(feeds) && EndsWith(prev, SchemeSuffix(url))
                && feeds == Rekey(old(feeds), prev, url, Feed(name, language, country))
                && articles == Repoint(old(articles), ArticleFeed, WithArticleFeed, prev, url)
                && n == 1 + |Referencing(old(articles), ArticleFeed, prev)|
                && Referencing(articles, ArticleFeed, prev) == {}
      ensures old(ReferencesValid()) ==> ReferencesValid()
    {
      migratedFrom := None;
      ghost var valid := ReferencesValid();
      var inserted := InsertFeed(url, name, language, country);
      if inserted == 1 {
        return 1, None;
      }
      assert feeds == old(feeds) && articles == old(articles);
      assert ItemExists(feeds.Keys, url, true);
      if CheckIfFeedExists(url, false) {
        feeds := feeds[url := Feed(name, language, country)];
        n := 1;   // the UPDATE's rowcount: the url is the key of one row
        return;
      }
      var prev :| prev in feeds && EndsWith(prev, SchemeSuffix(url));
      ghost var f0, a0 := feeds, articles;
      feeds := Rekey(feeds, prev, url, Feed(name, language, country));
      var articleRows := |Referencing(articles, ArticleFeed, prev)|;
      articles := Repoint(articles, ArticleFeed, WithArticleFeed, prev, url);
      n := 1 + articleRows;
      migratedFrom := Some(prev);
      if valid {
        MigrationKeepsReferencesValid(f0, a0, ArticleFeed, WithArticleFeed, prev, url, Feed(name, language, country), {});
      }
    }
  }
}
