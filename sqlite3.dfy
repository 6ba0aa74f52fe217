/**
  The catalog store of `SQLite3.py`: four tables (websites, feeds, articles,
  parsed_articles) held by one connection, existence queries, insert-if-absent
  and upsert with scheme migration.

  Each method is one atomic transition of the tables (the per-statement
  commits are not modelled). LIKE is read as a literal, case-sensitive match.
 */
module SQLite3 {
  import opened Urls
  import opened Tables

  /** Row of `websites` without its key. */
  datatype Website = Website(name: string, language: string, country: string)
  /** Row of `feeds` without its key; `website` refers to `websites.url`. */
  datatype Feed = Feed(name: string, website: Url)
  /** Row of `articles` without its key; `time` is the insert timestamp,
      `feed` refers to `feeds.url` ("" when the article has no feed) and
      `website` to `websites.url`. */
  datatype Article = Article(time: string, content: string, feed: Url, website: Url)

  /** The tables `_check_if_item_exists` is called on. */
  datatype Table = Websites | Feeds | Articles

  /** What an upsert reports: a row count, Python's `None`, or the
      IntegrityError raised out of the parsed_articles cascade. */
  datatype Outcome = Affected(rows: nat) | ReturnedNone | RaisedIntegrityError

  /** The four tables `_create_tables` declares. */
  const SchemaTables: set<string> := {"websites", "feeds", "articles", "parsed_articles"}

  /** The whole schema is present. */
  predicate TablesExist(tables: set<string>)
  {
    SchemaTables <= tables
  }

  /** The tables after `_create_tables` as written: the statement for
      `articles` lacks its closing parenthesis, so SQLite raises a syntax
      error after `websites` and `feeds` were created. */
  function CreatedAsWritten(tables: set<string>): set<string>
  {
    tables + {"websites", "feeds"}
  }

  /** The tables after `_create_tables` once the statement is well formed:
      every `CREATE TABLE IF NOT EXISTS` runs. */
  function CreatedAsIntended(tables: set<string>): set<string>
  {
    tables + SchemaTables
  }

  /** On a store without an `articles` table, `_create_tables` as written
      never makes `_check_if_tables_exist` true, however often it runs. */
  lemma CreateTablesAsWrittenNeverCompletes(tables: set<string>)
    requires "articles" !in tables
    ensures !TablesExist(CreatedAsWritten(tables))
    ensures CreatedAsWritten(CreatedAsWritten(tables)) == CreatedAsWritten(tables)
  {
    assert "articles" !in {"websites", "feeds"};
  }

  /** The intended `_create_tables` completes the schema, leaves tables
      that exist alone, and is idempotent, so opening a store twice is safe. */
  lemma CreateTablesCompletesSchema(tables: set<string>)
    ensures TablesExist(CreatedAsIntended(tables))
    ensures tables <= CreatedAsIntended(tables)
    ensures TablesExist(tables) ==> CreatedAsIntended(tables) == tables
    ensures CreatedAsIntended(CreatedAsIntended(tables)) == CreatedAsIntended(tables)
  {
  }

  /** `feed_url = ''` when `feed_url is None`. */
  function FeedColumn(feed: Option<Url>): Url
  {
    match feed
    case None => ""
    case Some(u) => u
  }

  /** The foreign-key columns, as getters and setters for `Repoint`. */
  function FeedWebsite(f: Feed): Url { f.website }
  function WithFeedWebsite(f: Feed, u: Url): Feed { f.(website := u) }
  function ArticleWebsite(a: Article): Url { a.website }
  function WithArticleWebsite(a: Article, u: Url): Article { a.(website := u) }
  function ArticleFeed(a: Article): Url { a.feed }
  function WithArticleFeed(a: Article, u: Url): Article { a.(feed := u) }

  /** Every foreign-key value names an existing parent row (an article's
      feed may also be ""). SQLite does not enforce this here: the
      connection never turns foreign keys on. */
  ghost predicate ReferencesValidIn(websites: map<Url, Website>, feeds: map<Url, Feed>,
                                    articles: map<Url, Article>, parsed: map<ParsedKey, string>)
  {
    && RefersInto(feeds, FeedWebsite, websites.Keys, {})
    && RefersInto(articles, ArticleWebsite, websites.Keys, {})
    && RefersInto(articles, ArticleFeed, feeds.Keys, {""})
    && forall k :: k in parsed ==> k.0 in articles
  }

  /** Inserting or overwriting a website row keeps every reference valid. */
  lemma WebsiteWriteKeepsReferencesValid(websites: map<Url, Website>, feeds: map<Url, Feed>,
                                         articles: map<Url, Article>, parsed: map<ParsedKey, string>,
                                         url: Url, row: Website)
    requires ReferencesValidIn(websites, feeds, articles, parsed)
    ensures ReferencesValidIn(websites[url := row], feeds, articles, parsed)
  {
  }

  /** Inserting or overwriting a feed row whose website exists keeps every
      reference valid. */
  lemma FeedWriteKeepsReferencesValid(websites: map<Url, Website>, feeds: map<Url, Feed>,
                                      articles: map<Url, Article>, parsed: map<ParsedKey, string>,
                                      url: Url, row: Feed)
    requires ReferencesValidIn(websites, feeds, articles, parsed)
    requires row.website in websites
    ensures ReferencesValidIn(websites, feeds[url := row], articles, parsed)
  {
  }

  /** Inserting or overwriting an article row whose parents exist keeps every
      reference valid. */
  lemma ArticleWriteKeepsReferencesValid(websites: map<Url, Website>, feeds: map<Url, Feed>,
                                         articles: map<Url, Article>, parsed: map<ParsedKey, string>,
                                         url: Url, row: Article)
    requires ReferencesValidIn(websites, feeds, articles, parsed)
    requires row.website in websites && row.feed in feeds.Keys + {""}
    ensures ReferencesValidIn(websites, feeds, articles[url := row], parsed)
  {
  }

  /** A website migration (key rewrite, then both cascades) keeps every
      reference valid. */
  lemma WebsiteMigrationKeepsReferencesValid(websites: map<Url, Website>, feeds: map<Url, Feed>,
                                             articles: map<Url, Article>, parsed: map<ParsedKey, string>,
                                             prev: Url, url: Url, row: Website)
    requires prev in websites && url !in websites
    requires ReferencesValidIn(websites, feeds, articles, parsed)
    ensures ReferencesValidIn(Rekey(websites, prev, url, row),
                              Repoint(feeds, FeedWebsite, WithFeedWebsite, prev, url),
                              Repoint(articles, ArticleWebsite, WithArticleWebsite, prev, url),
                              parsed)
  {
    MigrationKeepsReferencesValid(websites, feeds, FeedWebsite, WithFeedWebsite, prev, url, row, {});
    MigrationKeepsReferencesValid(websites, articles, ArticleWebsite, WithArticleWebsite, prev, url, row, {});
    var a' := Repoint(articles, ArticleWebsite, WithArticleWebsite, prev, url);
    forall k | k in a'
      ensures ArticleFeed(a'[k]) == ArticleFeed(articles[k])
    {
    }
  }

  /** A feed migration whose new row names an existing website keeps every
      reference valid. */
  lemma FeedMigrationKeepsReferencesValid(websites: map<Url, Website>, feeds: map<Url, Feed>,
                                          articles: map<Url, Article>, parsed: map<ParsedKey, string>,
                                          prev: Url, url: Url, row: Feed)
    requires prev in feeds && url !in feeds && row.website in websites
    requires ReferencesValidIn(websites, feeds, articles, parsed)
    ensures ReferencesValidIn(websites, Rekey(feeds, prev, url, row),
                              Repoint(articles, ArticleFeed, WithArticleFeed, prev, url), parsed)
  {
    MigrationKeepsReferencesValid(feeds, articles, ArticleFeed, WithArticleFeed, prev, url, row, {""});
    var a' := Repoint(articles, ArticleFeed, WithArticleFeed, prev, url);
    forall k | k in a'
      ensures ArticleWebsite(a'[k]) == ArticleWebsite(articles[k])
    {
    }
  }

  /** Under valid references the parsed_articles cascade of an article
      migration cannot conflict: a parsed row for the new URL would need the
      new URL to be an article already. */
  lemma ValidReferencesPreventParsedConflict(websites: map<Url, Website>, feeds: map<Url, Feed>,
                                             articles: map<Url, Article>, parsed: map<ParsedKey, string>,
                                             prev: Url, url: Url)
    requires url !in articles
    requires ReferencesValidIn(websites, feeds, articles, parsed)
    ensures !ParsedConflict(parsed, prev, url)
  {
    forall k | k in parsed && k.0 == prev
      ensures (url, k.1) !in parsed
    {
      assert (url, k.1) in parsed ==> (url, k.1).0 in articles;
    }
  }

  /** An article migration whose new row names existing parents keeps every
      reference valid. */
  lemma ArticleMigrationKeepsReferencesValid(websites: map<Url, Website>, feeds: map<Url, Feed>,
                                             articles: map<Url, Article>, parsed: map<ParsedKey, string>,
                                             prev: Url, url: Url, row: Article)
    requires prev in articles && url !in articles
    requires row.website in websites && row.feed in feeds.Keys + {""}
    requires ReferencesValidIn(websites, feeds, articles, parsed)
    ensures !ParsedConflict(parsed, prev, url)
    ensures ReferencesValidIn(websites, feeds, Rekey(articles, prev, url, row), RepointParsed(parsed, prev, url))
  {
    ValidReferencesPreventParsedConflict(websites, feeds, articles, parsed, prev, url);
    ParsedMigrationKeepsReferencesValid(articles, parsed, prev, url, row);
  }

  /** The tables after `update_article` migrated the article `prev` to `url`
      with the new row `row`. The key rewrite is committed first; then the
      cascade into `parsed_articles` either moves every parsed row of `prev`
      and reports 1 plus their number, or, when some parser already has rows
      for both URLs, raises an IntegrityError and changes nothing more. */
  ghost predicate ArticleMigration(a0: map<Url, Article>, p0: map<ParsedKey, string>, prev: Url, url: Url, row: Article,
                                   a: map<Url, Article>, p: map<ParsedKey, string>, result: Outcome)
    requires prev in a0 && url !in a0
  {
    && a == Rekey(a0, prev, url, row)
    && if ParsedConflict(p0, prev, url) then
         result == RaisedIntegrityError && p == p0
       else
         result == Affected(1 + |ParsedOf(p0, prev)|) && p == RepointParsed(p0, prev, url)
  }

  /** After an article migration no article has the old key. A successful
      cascade leaves no parsed row on it either; a failed one leaves parsed
      rows attached to an article that no longer exists. */
  lemma ArticleMigrationLeavesOldKey(a0: map<Url, Article>, p0: map<ParsedKey, string>, prev: Url, url: Url, row: Article,
                                     a: map<Url, Article>, p: map<ParsedKey, string>, result: Outcome)
    requires prev in a0 && url !in a0
    requires ArticleMigration(a0, p0, prev, url, row, a, p, result)
    ensures prev !in a && url in a && |a| == |a0|
    ensures result == RaisedIntegrityError <==> ParsedConflict(p0, prev, url)
    ensures result == RaisedIntegrityError ==> ParsedOf(p, prev) != {}
    ensures result != RaisedIntegrityError ==> ParsedOf(p, prev) == {}
  {
    if ParsedConflict(p0, prev, url) {
      var k :| k in p0 && k.0 == prev && (url, k.1) in p0;
      assert k in ParsedOf(p, prev);
    }
  }

  class Database {
    /** Names of the tables present in the store file. */
    var tables: set<string>
    var websites: map<Url, Website>
    var feeds: map<Url, Feed>
    var articles: map<Url, Article>
    /** `parsed_articles`, keyed by (article, parser), holding `content`. */
    var parsedArticles: map<ParsedKey, string>

    /** No row points at a missing parent. */
    ghost predicate ReferencesValid()
      reads this
    {
      ReferencesValidIn(websites, feeds, articles, parsedArticles)
    }

    /** `__init__`: open a store file holding `fileTables` and these rows, and
        create the schema when `_check_if_tables_exist` says it is missing.
        A file holds rows only in the tables it has. */
    constructor (fileTables: set<string>, fileWebsites: map<Url, Website>, fileFeeds: map<Url, Feed>,
                 fileArticles: map<Url, Article>, fileParsed: map<ParsedKey, string>)
      requires "websites" !in fileTables ==> fileWebsites == map[]
      requires "feeds" !in fileTables ==> fileFeeds == map[]
      requires "articles" !in fileTables ==> fileArticles == map[]
      requires "parsed_articles" !in fileTables ==> fileParsed == map[]
      ensures tables == if TablesExist(fileTables) then fileTables else CreatedAsIntended(fileTables)
      ensures CheckIfTablesExist()
      ensures websites == fileWebsites && feeds == fileFeeds
      ensures articles == fileArticles && parsedArticles == fileParsed
    {
      tables := fileTables;
      websites, feeds, articles, parsedArticles := fileWebsites, fileFeeds, fileArticles, fileParsed;
      new;
      if !CheckIfTablesExist() {
        CreateTablesIntended();
      }
    }

    /** `_create_tables` as written: raises after creating two tables. */
    method CreateTables() returns (raised: bool)
      modifies this`tables
      ensures tables == CreatedAsWritten(old(tables)) && raised
    {
      tables := tables + {"websites"};
      tables := tables + {"feeds"};
      raised := true;   // the `articles` statement is not valid SQL
    }

    /** `_create_tables` with the `articles` statement closed: the four
        `CREATE TABLE IF NOT EXISTS` statements in order. */
    method CreateTablesIntended()
      modifies this`tables
      ensures tables == CreatedAsIntended(old(tables))
      ensures CheckIfTablesExist()
    {
      tables := tables + {"websites"};
      tables := tables + {"feeds"};
      tables := tables + {"articles"};
      tables := tables + {"parsed_articles"};
    }

    /** `_check_if_tables_exist`: the four lookups in `sqlite_master`, each
        returning False when its table is missing, succeed exactly when the
        whole schema is present. */
    function CheckIfTablesExist(): (r: bool)
      reads this
      ensures r <==> TablesExist(tables)
    {
      "websites" in tables && "feeds" in tables && "articles" in tables && "parsed_articles" in tables
    }

    function KeysOf(table: Table): set<Url>
      reads this
    {
      match table
      case Websites => websites.Keys
      case Feeds => feeds.Keys
      case Articles => articles.Keys
    }

    /** `_check_if_item_exists`: a stored URL is always found, and the exact
        query finds nothing else. */
    function CheckIfItemExists(table: Table, url: Url, ignoreProtocol: bool): (r: bool)
      reads this
      ensures url in KeysOf(table) ==> r
      ensures !ignoreProtocol ==> (r <==> url in KeysOf(table))
    {
      ExactMatchIsSuffixMatch(KeysOf(table), url);
      ItemExists(KeysOf(table), url, ignoreProtocol)
    }

    /** `check_if_article_exists`. */
    function CheckIfArticleExists(url: Url, ignoreProtocol: bool): (r: bool)
      reads this
      ensures url in articles ==> r
      ensures !ignoreProtocol ==> (r <==> url in articles)
    {
      CheckIfItemExists(Articles, url, ignoreProtocol)
    }

    /** `check_if_feed_exists`. */
    function CheckIfFeedExists(url: Url, ignoreProtocol: bool): (r: bool)
      reads this
      ensures url in feeds ==> r
      ensures !ignoreProtocol ==> (r <==> url in feeds)
    {
      CheckIfItemExists(Feeds, url, ignoreProtocol)
    }

    /** `check_if_website_exists`. */
    function CheckIfWebsiteExists(url: Url, ignoreProtocol: bool): (r: bool)
      reads this
      ensures url in websites ==> r
      ensures !ignoreProtocol ==> (r <==> url in websites)
    {
      CheckIfItemExists(Websites, url, ignoreProtocol)
    }

    /** `check_if_parsed_article_exists`: exact match on the composite key.
        A hit means the article has parsed rows, and while references are
        valid the article itself is stored. */
    function CheckIfParsedArticleExists(article: Url, parser: string): (r: bool)
      reads this
      ensures r ==> ParsedOf(parsedArticles, article) != {}
      ensures r && ReferencesValid() ==> CheckIfArticleExists(article, false)
    {
      assert (article, parser) in parsedArticles ==> (article, parser) in ParsedOf(parsedArticles, article);
      (article, parser) in parsedArticles
    }

    /** `get_all_feed_urls`. */
    method GetAllFeedUrls() returns (urls: seq<Url>)
      ensures |urls| == |feeds|
      ensures forall u :: u in urls <==> u in feeds
      ensures forall i, j :: 0 <= i < j < |urls| ==> urls[i] != urls[j]
    {
      urls := ListKeys(feeds);
    }

    /** `get_all_website_urls`. */
    method GetAllWebsiteUrls() returns (urls: seq<Url>)
      ensures |urls| == |websites|
      ensures forall u :: u in urls <==> u in websites
      ensures forall i, j :: 0 <= i < j < |urls| ==> urls[i] != urls[j]
    {
      urls := ListKeys(websites);
    }

    /** `get_website_for_feed`: the website the feed belongs to. A missing
        feed makes `SQLite3.py` fail on `None[0]`; callers must not ask. */
    function GetWebsiteForFeed(feedUrl: Url): (r: Url)
      reads this
      requires feedUrl in feeds
      ensures feedUrl in Referencing(feeds, FeedWebsite, r)
      ensures ReferencesValid() ==> r in websites
    {
      feeds[feedUrl].website
    }

    /** `insert_website`: insert unless a key shares the URL's scheme-agnostic
        suffix; return the number of rows inserted. */
    method InsertWebsite(url: Url, name: string, language: string, country: string) returns (n: nat)
      modifies this
      ensures old(CheckIfWebsiteExists(url, true)) ==> n == 0 && unchanged(this)
      ensures !old(CheckIfWebsiteExists(url, true)) ==>
                && n == 1 && url !in old(websites)
                && websites == old(websites)[url := Website(name, language, country)]
                && |websites| == |old(websites)| + 1
                && tables == old(tables) && feeds == old(feeds)
                && articles == old(articles) && parsedArticles == old(parsedArticles)
      ensures old(ReferencesValid()) ==> ReferencesValid()
    {
      if !CheckIfWebsiteExists(url, true) {
        if ReferencesValid() {
          WebsiteWriteKeepsReferencesValid(websites, feeds, articles, parsedArticles, url, Website(name, language, country));
        }
        websites := websites[url := Website(name, language, country)];
        n := 1;
      } else {
        n := 0;
      }
    }

    /** `insert_feed`. */
    method InsertFeed(url: Url, website: Url, name: string) returns (n: nat)
      modifies this
      ensures old(CheckIfFeedExists(url, true)) ==> n == 0 && unchanged(this)
      ensures !old(CheckIfFeedExists(url, true)) ==>
                && n == 1 && url !in old(feeds)
                && feeds == old(feeds)[url := Feed(name, website)]
                && |feeds| == |old(feeds)| + 1
                && tables == old(tables) && websites == old(websites)
                && articles == old(articles) && parsedArticles == old(parsedArticles)
      ensures old(ReferencesValid()) && website in websites ==> ReferencesValid()
    {
      if !CheckIfFeedExists(url, true) {
        if ReferencesValid() && website in websites {
          FeedWriteKeepsReferencesValid(websites, feeds, articles, parsedArticles, url, Feed(name, website));
        }
        feeds := feeds[url := Feed(name, website)];
        n := 1;
      } else {
        n := 0;
      }
    }

    /** `insert_article`: an absent feed is stored as ""; `time` takes the
        current timestamp `now`. */
    method InsertArticle(url: Url, feed: Option<Url>, website: Url, content: string, now: string) returns (n: nat)
      modifies this
      ensures old(CheckIfArticleExists(url, true)) ==> n == 0 && unchanged(this)
      ensures !old(CheckIfArticleExists(url, true)) ==>
                && n == 1 && url !in old(articles)
                && articles == old(articles)[url := Article(now, content, FeedColumn(feed), website)]
                && |articles| == |old(articles)| + 1
                && tables == old(tables) && websites == old(websites)
                && feeds == old(feeds) && parsedArticles == old(parsedArticles)
      ensures old(ReferencesValid()) && website in websites && FeedColumn(feed) in feeds.Keys + {""} ==> ReferencesValid()
    {
      if !CheckIfArticleExists(url, true) {
        var feedUrl := FeedColumn(feed);
        if ReferencesValid() && website in websites && feedUrl in feeds.Keys + {""} {
          ArticleWriteKeepsReferencesValid(websites, feeds, articles, parsedArticles, url, Article(now, content, feedUrl, website));
        }
        articles := articles[url := Article(now, content, feedUrl, website)];
        n := 1;
      } else {
        n := 0;
      }
    }

    /** `insert_parsed_article`: exact check on (article, parser), so one
        article holds one row per parser. */
    method InsertParsedArticle(article: Url, parser: string, content: string) returns (n: nat)
      modifies this
      ensures old(CheckIfParsedArticleExists(article, parser)) ==> n == 0 && unchanged(this)
      ensures !old(CheckIfParsedArticleExists(article, parser)) ==>
                && n == 1
                && parsedArticles == old(parsedArticles)[(article, parser) := content]
                && |parsedArticles| == |old(parsedArticles)| + 1
                && tables == old(tables) && websites == old(websites)
                && feeds == old(feeds) && articles == old(articles)
      ensures old(ReferencesValid()) && article in articles ==> ReferencesValid()
    {
      if !CheckIfParsedArticleExists(article, parser) {
        parsedArticles := parsedArticles[(article, parser) := content];
        n := 1;
      } else {
        n := 0;
      }
    }

    /** `update_parsed_article`: insert the row, or overwrite its content.
        The Python code issues the UPDATE on a cursor it never obtained (a
        NameError); this models the evident intent, a fresh cursor. */
    method UpdateParsedArticle(article: Url, parser: string, content: string) returns (n: nat)
      modifies this
      ensures n == 1
      ensures parsedArticles == old(parsedArticles)[(article, parser) := content]
      ensures tables == old(tables) && websites == old(websites)
      ensures feeds == old(feeds) && articles == old(articles)
      ensures CheckIfParsedArticleExists(article, parser)
      ensures old(ReferencesValid()) && article in articles ==> ReferencesValid()
    {
      var inserted := InsertParsedArticle(article, parser, content);
      if inserted == 1 {
        return 1;
      }
      parsedArticles := parsedArticles[(article, parser) := content];
      n := 1;
    }

    /** `update_website`. Insert when no key shares the scheme-agnostic
        suffix; overwrite the attributes when the URL is a key; otherwise
        migrate: rewrite the old key's row, then repoint `feeds.website` and
        `articles.website`, returning 1 plus both cascade counts.
        The Python code tests the unbound name `url` in its exact check (a
        NameError); this models the evident intent, `website_url`. */
    method UpdateWebsite(url: Url, name: string, language: string, country: string)
      returns (n: nat, ghost migratedFrom: Option<Url>)
      modifies this
      ensures tables == old(tables) && parsedArticles == old(parsedArticles)
      ensures !old(CheckIfWebsiteExists(url, true)) ==>
                && n == 1 && migratedFrom == None
                && websites == old(websites)[url := Website(name, language, country)]
                && feeds == old(feeds) && articles == old(articles)
      ensures url in old(websites) ==>
                && n == 1 && migratedFrom == None
                && websites == old(websites)[url := Website(name, language, country)]
                && feeds == old(feeds) && articles == old(articles)
      ensures old(CheckIfWebsiteExists(url, true)) && url !in old(websites) ==>
                && migratedFrom.Some?
                && var prev := migratedFrom.value;
                && prev in old(websites) && EndsWith(prev, SchemeSuffix(url))
                && websites == Rekey(old(websites), prev, url, Website(name, language, country))
                && feeds == Repoint(old(feeds), FeedWebsite, WithFeedWebsite, prev, url)
                && articles == Repoint(old(articles), ArticleWebsite, WithArticleWebsite, prev, url)
                && n == 1 + |Referencing(old(feeds), FeedWebsite, prev)|
                          + |Referencing(old(articles), ArticleWebsite, prev)|
                && Referencing(feeds, FeedWebsite, prev) == {}
                && Referencing(articles, ArticleWebsite, prev) == {}
      ensures old(ReferencesValid()) ==> ReferencesValid()
    {
      migratedFrom := None;
      ghost var valid := ReferencesValid();
      if valid {
        WebsiteWriteKeepsReferencesValid(websites, feeds, articles, parsedArticles, url, Website(name, language, country));
      }
      var inserted := InsertWebsite(url, name, language, country);
      if inserted == 1 {
        return 1, None;
      }
      assert websites == old(websites) && feeds == old(feeds) && articles == old(articles);
      assert ItemExists(websites.Keys, url, true);
      if CheckIfWebsiteExists(url, false) {
        websites := websites[url := Website(name, language, country)];
        return 1, None;
      }
      // the old url: the first key that ends with the scheme-agnostic suffix
      var prev :| prev in websites && EndsWith(prev, SchemeSuffix(url));
      if valid {
        WebsiteMigrationKeepsReferencesValid(websites, feeds, articles, parsedArticles, prev, url, Website(name, language, country));
      }
      n := MigrateWebsite(prev, url, Website(name, language, country));
      migratedFrom := Some(prev);
    }

    /** The migration branch of `update_website`: the `prev` row is rewritten
        under `url`, then `feeds.website` and `articles.website` are
        repointed; the result is the accumulated rowcount. */
    method MigrateWebsite(prev: Url, url: Url, row: Website) returns (n: nat)
      requires prev in websites && url !in websites
      modifies this
      ensures websites == Rekey(old(websites), prev, url, row)
      ensures feeds == Repoint(old(feeds), FeedWebsite, WithFeedWebsite, prev, url)
      ensures articles == Repoint(old(articles), ArticleWebsite, WithArticleWebsite, prev, url)
      ensures n == 1 + |Referencing(old(feeds), FeedWebsite, prev)| + |Referencing(old(articles), ArticleWebsite, prev)|
      ensures tables == old(tables) && parsedArticles == old(parsedArticles)
    {
      websites := Rekey(websites, prev, url, row);
      var feedRows := |Referencing(feeds, FeedWebsite, prev)|;
      feeds := Repoint(feeds, FeedWebsite, WithFeedWebsite, prev, url);
      n := 1 + feedRows;
      var articleRows := |Referencing(articles, ArticleWebsite, prev)|;
      articles := Repoint(articles, ArticleWebsite, WithArticleWebsite, prev, url);
      n := n + articleRows;
    }

    /** `update_feed`. Insert when no key shares the scheme-agnostic suffix;
        when the URL is already a key the Python code falls through, changes
        nothing and returns `None`; otherwise migrate the feed row and repoint
        `articles.feed`, returning 1 plus the cascade count. */
    method UpdateFeed(url: Url, website: Url, name: string) returns (result: Outcome, ghost migratedFrom: Option<Url>)
      modifies this
      ensures tables == old(tables) && websites == old(websites) && parsedArticles == old(parsedArticles)
      ensures !old(CheckIfFeedExists(url, true)) ==>
                && result == Affected(1) && migratedFrom == None
                && feeds == old(feeds)[url := Feed(name, website)]
                && articles == old(articles)
      ensures url in old(feeds) ==>
                result == ReturnedNone && migratedFrom == None && unchanged(this)
      ensures old(CheckIfFeedExists(url, true)) && url !in old(feeds) ==>
                && migratedFrom.Some?
                && var prev := migratedFrom.value;
                && prev in old(feeds) && EndsWith(prev, SchemeSuffix(url))
                && feeds == Rekey(old(feeds), prev, url, Feed(name, website))
                && articles == Repoint(old(articles), ArticleFeed, WithArticleFeed, prev, url)
                && result == Affected(1 + |Referencing(old(articles), ArticleFeed, prev)|)
                && Referencing(articles, ArticleFeed, prev) == {}
      ensures old(ReferencesValid()) && website in websites ==> ReferencesValid()
    {
      migratedFrom := None;
      ghost var valid := ReferencesValid() && website in websites;
      if valid {
        FeedWriteKeepsReferencesValid(websites, feeds, articles, parsedArticles, url, Feed(name, website));
      }
      var inserted := InsertFeed(url, website, name);
      if inserted == 1 {
        return Affected(1), None;
      }
      assert feeds == old(feeds) && articles == old(articles);
      assert ItemExists(feeds.Keys, url, true);
      if !CheckIfFeedExists(url, false) {
        var prev :| prev in feeds && EndsWith(prev, SchemeSuffix(url));
        if valid {
          FeedMigrationKeepsReferencesValid(websites, feeds, articles, parsedArticles, prev, url, Feed(name, website));
        }
        var n := MigrateFeed(prev, url, Feed(name, website));
        result := Affected(n);
        migratedFrom := Some(prev);
      } else {
        result := ReturnedNone;
      }
    }

    /** The migration branch of `update_feed`: the `prev` row is rewritten
        under `url`, then `articles.feed` is repointed; the result is the
        accumulated rowcount. */
    method MigrateFeed(prev: Url, url: Url, row: Feed) returns (n: nat)
      requires prev in feeds && url !in feeds
      modifies this
      ensures feeds == Rekey(old(feeds), prev, url, row)
      ensures articles == Repoint(old(articles), ArticleFeed, WithArticleFeed, prev, url)
      ensures n == 1 + |Referencing(old(articles), ArticleFeed, prev)|
      ensures tables == old(tables) && websites == old(websites) && parsedArticles == old(parsedArticles)
    {
      feeds := Rekey(feeds, prev, url, row);
      var articleRows := |Referencing(articles, ArticleFeed, prev)|;
      articles := Repoint(articles, ArticleFeed, WithArticleFeed, prev, url);
      n := 1 + articleRows;
    }

    /** `update_article`. Insert when no key shares the scheme-agnostic
        suffix; when the URL is a key overwrite `feed`, `website` and
        `content`; otherwise migrate the old row (its `time` is kept) and
        repoint `parsed_articles.article`. The key rewrite is committed
        before the cascade runs, so when some parser already has a row for
        the new URL the cascade's IntegrityError leaves parsed rows on the
        old key. */
    method UpdateArticle(url: Url, feed: Option<Url>, website: Url, content: string, now: string)
      returns (result: Outcome, ghost migratedFrom: Option<Url>)
      modifies this
      ensures tables == old(tables) && websites == old(websites) && feeds == old(feeds)
      ensures !old(CheckIfArticleExists(url, true)) ==>
                && result == Affected(1) && migratedFrom == None
                && articles == old(articles)[url := Article(now, content, FeedColumn(feed), website)]
                && parsedArticles == old(parsedArticles)
      ensures url in old(articles) ==>
                && result == Affected(1) && migratedFrom == None
                && articles == old(articles)[url := old(articles)[url].(feed := FeedColumn(feed), website := website, content := content)]
                && parsedArticles == old(parsedArticles)
      ensures old(CheckIfArticleExists(url, true)) && url !in old(articles) ==>
                && migratedFrom.Some?
                && var prev := migratedFrom.value;
                && prev in old(articles) && EndsWith(prev, SchemeSuffix(url))
                && ArticleMigration(old(articles), old(parsedArticles), prev, url,
                                    old(articles)[prev].(feed := FeedColumn(feed), website := website, content := content),
                                    articles, parsedArticles, result)
      ensures old(ReferencesValid()) ==> result != RaisedIntegrityError
      ensures old(ReferencesValid()) && website in websites && FeedColumn(feed) in feeds.Keys + {""} ==> ReferencesValid()
    {
      migratedFrom := None;
      var feedUrl := FeedColumn(feed);
      ghost var intact := ReferencesValid();
      ghost var valid := intact && website in websites && feedUrl in feeds.Keys + {""};
      if valid {
        ArticleWriteKeepsReferencesValid(websites, feeds, articles, parsedArticles, url, Article(now, content, feedUrl, website));
        if url in articles {
          ArticleWriteKeepsReferencesValid(websites, feeds, articles, parsedArticles, url,
                                           articles[url].(feed := feedUrl, website := website, content := content));
        }
      }
      var inserted := InsertArticle(url, Some(feedUrl), website, content, now);
      if inserted == 1 {
        return Affected(1), None;
      }
      assert articles == old(articles) && parsedArticles == old(parsedArticles);
      assert ItemExists(articles.Keys, url, true);
      if CheckIfArticleExists(url, false) {
        articles := articles[url := articles[url].(feed := feedUrl, website := website, content := content)];
        return Affected(1), None;
      }
      var prev :| prev in articles && EndsWith(prev, SchemeSuffix(url));
      migratedFrom := Some(prev);
      var row := articles[prev].(feed := feedUrl, website := website, content := content);
      if intact {
        ValidReferencesPreventParsedConflict(websites, feeds, articles, parsedArticles, prev, url);
      }
      if valid {
        ArticleMigrationKeepsReferencesValid(websites, feeds, articles, parsedArticles, prev, url, row);
      }
      result := MigrateArticle(prev, url, row);
    }

    /** The migration branch of `update_article`: the `prev` row is rewritten
        under `url` and committed, then `parsed_articles.article` is
        repointed. When that would give some parser two rows for `url`,
        UNIQUE(article, parser) fails and SQLite undoes that statement only. */
    method MigrateArticle(prev: Url, url: Url, row: Article) returns (result: Outcome)
      requires prev in articles && url !in articles
      modifies this
      ensures ArticleMigration(old(articles), old(parsedArticles), prev, url, row, articles, parsedArticles, result)
      ensures tables == old(tables) && websites == old(websites) && feeds == old(feeds)
    {
      articles := Rekey(articles, prev, url, row);
      if ParsedConflict(parsedArticles, prev, url) {
        return RaisedIntegrityError;
      }
      var parsedRows := |ParsedOf(parsedArticles, prev)|;
      parsedArticles := RepointParsed(parsedArticles, prev, url);
      result := Affected(1 + parsedRows);
    }
  }
}
