# Verified model of the news catalog store

The catalog keeps the websites, RSS feeds and articles a news crawler knows
about in an SQLite file. It comes in two versions:

- `SQLite3.py` (module `SQLite3`) is the newer one, with four tables:
  `websites`, `feeds`, `articles`, and `parsed_articles` keyed by
  (article, parser).
- `Database.py` (module `Database`) is the older one that the feed parser
  uses, with two tables: `feeds` and `articles`.

Both versions do three things:

- **Existence queries.** The URL-keyed ones (`check_if_website_exists`,
  `check_if_feed_exists`, `check_if_article_exists` in `SQLite3.py`, and
  `_check_if_feed_exists` in `Database.py`) are exact, or "ignoring
  protocol". Ignoring protocol means that any key ending in
  `url[url.find("://"):]` matches. `SQLite3.py`'s
  `check_if_parsed_article_exists` and `Database.py`'s
  `check_if_article_exists` are exact only.
- **Insert-if-absent.** `insert_website`, `insert_feed` and `insert_article`
  in `SQLite3.py`, and `insert_feed` in `Database.py`, return 1 when the row
  is inserted and 0 when a key already shares the URL's scheme-agnostic
  suffix. `insert_parsed_article` checks the exact (article, parser) pair
  instead. `Database.py`'s `insert_article` checks nothing and returns
  nothing; an existing URL makes SQLite raise.
- **Upserts.** `update_website` and `update_article` in `SQLite3.py`, and
  `update_feed` in `Database.py`, insert the row, or overwrite a row whose
  key is the URL itself, or migrate: when the URL is stored only under
  another scheme (`http://a.com` vs `https://a.com`), they rewrite that
  row's primary key and repoint every foreign-key column that held the old
  key, returning 1 plus the number of rows repointed. `SQLite3.py`'s
  `update_feed` does the same except that for an exact key it changes
  nothing and returns `None`. `update_parsed_article` inserts the pair or
  overwrites its content, and never migrates.

Project layout:

- `urls.dfy` (module `Urls`) models Python's `str.find`, Python's `s[k:]`
  slice and the scheme-agnostic match key. It proves what the key identifies
  and what it does not.
- `tables.dfy` (module `Tables`) holds the table-level statements as
  functions on maps:
  - the existence query;
  - the primary-key rewrite (`Rekey`);
  - the foreign-key cascade `UPDATE ... SET col = new WHERE col = old`
    (`Repoint`, and `RepointParsed` for `parsed_articles`);
  - the key listing (`ListKeys`).
- `sqlite3.dfy` and `database.dfy` hold the two store classes. Their fields
  are the tables: maps from the URL primary key to the rest of the row.
  Every insert and upsert is a method that states the whole new state.
  `ReferencesValid` says that no row points at a missing parent. Every write
  preserves it when the parents that the written row names exist:
  - a website write always preserves it;
  - a feed write needs its website to exist;
  - an article write needs its website to exist, and its feed too unless
    that is "";
  - a parsed_articles write needs its article to exist.
- `scenarios.dfy` holds callers proved from the stores' contracts alone:
  - a website migration that carries its feed along;
  - a different host being inserted rather than migrated;
  - a repeated upsert that inserts once;
  - the feed parser's check-then-insert loop (`FeedParser.py`).

Modelling choices:

- A `LIKE` test is read as a literal, case-sensitive match. The exact query is
  key equality. The `'%' + suffix` query is a suffix test.
- The current timestamp that SQLite puts in `time` is the parameter `now`.
- When several keys match a migration lookup, the row `fetchone()` returns is
  an arbitrary matching key (`:|`). The upserts expose it as the ghost
  out-parameter `migratedFrom`.
- Each `assert c.rowcount == 1` of the Python code is proved from key uniqueness:
  - when the `ignore_protocol` query fails, the URL is not a key;
  - `Rekey` rewrites exactly one row.

Deviations from the code as written:

- `update_website` tests the unbound name `url` in its exact check
  (SQLite3.py:267), so that path raises a NameError. The model tests
  `website_url`, which is evidently what was meant.
- `update_parsed_article` issues its UPDATE on a cursor it never obtained
  (SQLite3.py:255), which also raises a NameError. The model uses a fresh
  cursor.
- The store's constructor uses the corrected `_create_tables`; see Findings.

Behaviours kept exactly as written:

- `update_feed` in `SQLite3.py` performs no UPDATE when the exact URL is
  already a key. It returns `None` (`ReturnedNone`) and changes nothing.
- An article migration in `SQLite3.py` commits the key rewrite before the
  `parsed_articles` cascade runs. The cascade raises an IntegrityError when
  some parser already has rows for both the old and the new URL. That outcome
  is `RaisedIntegrityError`: the article key has moved, and the parsed rows
  stay on the old key. The model proves this cannot happen while references
  are valid.
- `Database.py`'s `insert_article` does no existence check. A URL that is
  already a key makes SQLite raise an IntegrityError, which the method
  reports and which leaves the state unchanged.

## Model

| member | source | states |
|---|---|---|
| Urls.FindFrom | SQLite3.py:33 | `s.find(pat, start)` returns the first occurrence at or after `start`, or -1 when there is none |
| Urls.SliceFrom | SQLite3.py:33 | `s[k:]` is a suffix of `s`; a negative `k` counts from the end and is clamped at the start; its length follows Python's rules |
| Urls.SchemeSuffix | SQLite3.py:32-33 | the match key ends the URL; with "://" present it starts with "://" at the first occurrence; without one it is the last character (empty for the empty URL) |
| Urls.FirstSeparatorAfterScheme | SQLite3.py:33 | for a scheme without ':', the first "://" of `scheme://rest` is the one right after the scheme |
| Urls.SchemeSuffixOfSchemeUrl | Database.py:29-30 | the match key of `scheme://rest` is `://rest` |
| Urls.SchemeChangeMatches | SQLite3.py:187-188 | two URLs that differ only in scheme have the same match key and each matches the other, although they are different keys |
| Urls.NoSeparatorAfterScheme | SQLite3.py:33 | when the remainder holds no "://", no "://" starts after the scheme |
| Urls.SeparatorOnlyAfterScheme | SQLite3.py:33 | in a well-formed `scheme://rest` the only "://" is the one right after the scheme |
| Urls.SuffixMatchIffSameRemainder | SQLite3.py:32-36 | for well-formed URLs a stored key matches iff the remainders after "://" are equal: another host or path is another entity |
| Urls.NoSeparatorMatchesLastChar | SQLite3.py:32-36 | without "://" any key ending in the URL's last character matches, and the empty URL matches every key |
| Tables.ExactMatchIsSuffixMatch | SQLite3.py:29-36 | an exact hit is also an `ignore_protocol` hit, so a failed `ignore_protocol` query means the INSERT cannot hit the primary key (`rowcount == 1`) |
| Tables.InsertedUrlBlocksReinsert | SQLite3.py:124-176 | once a URL is stored, inserting it again, or inserting it under another scheme, is refused |
| Tables.Repoint | SQLite3.py:293-301 | the cascade UPDATE keeps every key, rewrites the column of exactly the rows that held the old key, leaves the rest untouched, and leaves no row on the old key |
| Tables.RepointMovesReferences | SQLite3.py:293-301 | the rows on the new key afterwards are those that were on it plus those that were on the old key, so the rowcount is the number of references gained |
| Tables.Rekey | SQLite3.py:286-289 | the key rewrite affects exactly one row: the old key is gone, the new key holds the new row, the table keeps its size and other rows are unchanged |
| Tables.MigrationKeepsReferencesValid | SQLite3.py:286-301 | a key rewrite followed by its cascade leaves no child row pointing at a missing parent |
| Tables.ParsedMigrationKeepsReferencesValid | SQLite3.py:207-216 | after the article key rewrite and a successful parsed_articles cascade, every parsed row still names a stored article |
| Tables.RepointParsed | SQLite3.py:215-216 | the parsed_articles cascade moves each (old, parser) row to (new, parser) with its content, keeps every other row, and leaves nothing on the old article |
| Tables.ListKeys | SQLite3.py:104-108 | `SELECT url` lists every key exactly once |
| SQLite3.CreateTablesAsWrittenNeverCompletes | SQLite3.py:85-100 | with the unclosed `articles` statement, `_create_tables` creates only websites and feeds, so the tables never all exist, however often it runs |
| SQLite3.CreateTablesCompletesSchema | SQLite3.py:51-101 | the corrected `_create_tables` makes `_check_if_tables_exist` true, keeps existing tables and is idempotent |
| SQLite3.WebsiteWriteKeepsReferencesValid | SQLite3.py:166-176 | inserting or overwriting a website keeps all references valid |
| SQLite3.FeedWriteKeepsReferencesValid | SQLite3.py:141-150 | inserting or overwriting a feed whose website exists keeps all references valid |
| SQLite3.ArticleWriteKeepsReferencesValid | SQLite3.py:124-138 | inserting or overwriting an article whose feed and website exist keeps all references valid |
| SQLite3.WebsiteMigrationKeepsReferencesValid | SQLite3.py:276-304 | a website migration with both cascades keeps all references valid |
| SQLite3.FeedMigrationKeepsReferencesValid | SQLite3.py:228-248 | a feed migration with the `articles.feed` cascade keeps all references valid |
| SQLite3.ValidReferencesPreventParsedConflict | SQLite3.py:214-217 | while references are valid, the parsed_articles cascade of an article migration cannot break UNIQUE(article, parser) |
| SQLite3.ArticleMigrationKeepsReferencesValid | SQLite3.py:198-220 | an article migration with the parsed_articles cascade keeps all references valid |
| SQLite3.ArticleMigrationLeavesOldKey | SQLite3.py:207-220 | after an article migration the old key is gone, the new one is present and the table keeps its size; the cascade raises exactly on a conflict; a successful cascade leaves no parsed row on the old key, a failed one leaves parsed rows on an article that no longer exists |
| SQLite3.Database.constructor | SQLite3.py:8-12 | opening a store creates the schema when any table is missing and keeps every row; afterwards the tables exist |
| SQLite3.Database.CreateTables | SQLite3.py:77-101 | as written: adds websites and feeds, then raises |
| SQLite3.Database.CreateTablesIntended | SQLite3.py:77-101 | the four `CREATE TABLE IF NOT EXISTS` statements, after which the tables exist |
| SQLite3.Database.CheckIfTablesExist | SQLite3.py:51-74 | the four lookups, each returning False on a missing table, succeed exactly when the whole schema is present |
| SQLite3.Database.CheckIfItemExists | SQLite3.py:29-36 | a stored URL is always found, with or without `ignore_protocol`; the exact query finds exactly the stored URLs |
| SQLite3.Database.CheckIfArticleExists | SQLite3.py:20-22 | the same for articles |
| SQLite3.Database.CheckIfFeedExists | SQLite3.py:25-26 | the same for feeds |
| SQLite3.Database.CheckIfWebsiteExists | SQLite3.py:46-48 | the same for websites |
| SQLite3.Database.CheckIfParsedArticleExists | SQLite3.py:39-43 | a hit means the article has parsed rows; while references are valid the article itself is stored |
| SQLite3.Database.GetAllFeedUrls | SQLite3.py:104-108 | every feed key exactly once |
| SQLite3.Database.GetAllWebsiteUrls | SQLite3.py:111-115 | every website key exactly once |
| SQLite3.Database.GetWebsiteForFeed | SQLite3.py:118-121 | the result is the website the feed names; while references are valid (the `FOREIGN KEY(website) REFERENCES websites(url)` of the schema) it is a stored website |
| SQLite3.Database.InsertWebsite | SQLite3.py:166-176 | returns 1 and adds exactly this row iff no key shares the suffix (the URL is then not a key); otherwise returns 0 and changes nothing; references stay valid |
| SQLite3.Database.InsertFeed | SQLite3.py:141-150 | the same insert-if-absent relation for feeds; references stay valid when the feed's website exists |
| SQLite3.Database.InsertArticle | SQLite3.py:124-138 | the same for articles, with an absent feed stored as "" and `time` set to now; references stay valid when the website exists and the feed exists or is absent |
| SQLite3.Database.InsertParsedArticle | SQLite3.py:154-163 | exact check on (article, parser): one row per parser per article; a second insert of the pair returns 0 and changes nothing; references stay valid when the article exists |
| SQLite3.Database.UpdateParsedArticle | SQLite3.py:251-259 | afterwards the pair holds the new content, nothing else changes and the result is 1; references stay valid when the article exists |
| SQLite3.Database.UpdateWebsite | SQLite3.py:262-304 | insert; or overwrite in place; or migrate: rekey the row, repoint `feeds.website` and `articles.website`, return 1 + both counts, leave nothing on the old key; references stay valid |
| SQLite3.Database.UpdateFeed | SQLite3.py:223-248 | insert; or, for an exact key, no change and `None`; or migrate: rekey, repoint `articles.feed`, return 1 + the count; references stay valid when the feed's website exists |
| SQLite3.Database.UpdateArticle | SQLite3.py:179-220 | insert; or overwrite only feed, website and content; or migrate (`ArticleMigration`): rekey keeping `time`, then repoint parsed_articles and return 1 + the count, or raise and leave the partial state; valid references rule the raise out, and they stay valid when the website exists and the feed exists or is absent |
| SQLite3.Database.MigrateWebsite | SQLite3.py:276-304 | the new tables are the key rewrite and both cascades of the old ones; the result is 1 + both cascade counts |
| SQLite3.Database.MigrateFeed | SQLite3.py:229-248 | the new tables are the key rewrite and the `articles.feed` cascade; the result is 1 + the cascade count |
| SQLite3.Database.MigrateArticle | SQLite3.py:198-220 | the new tables are the committed key rewrite followed by the parsed_articles cascade or its IntegrityError |
| Database.CreateTablesCompletesSchema | Database.py:36-64 | `_create_tables` makes `_check_if_tables_exist` true, keeps existing tables and is idempotent |
| Database.Database.constructor | Database.py:8-12 | opening a store creates the schema when a table is missing and keeps every row |
| Database.Database.CreateTables | Database.py:50-64 | both `CREATE TABLE IF NOT EXISTS` statements, after which the tables exist |
| Database.Database.CheckIfTablesExist | Database.py:36-47 | the two lookups succeed exactly when the whole schema is present |
| Database.Database.CheckIfArticleExists | Database.py:20-23 | `url = ?` is the exact existence query, and each hit is also an `ignore_protocol` hit |
| Database.Database.CheckIfFeedExists | Database.py:26-33 | a stored URL is always found; the exact query finds exactly the stored URLs |
| Database.Database.GetAllFeedUrls | Database.py:67-71 | every feed key exactly once |
| Database.Database.InsertArticle | Database.py:81-88 | a new URL adds exactly this row with `time` set to now; an existing URL raises IntegrityError and changes nothing; references stay valid when the feed exists |
| Database.Database.InsertFeed | Database.py:92-101 | returns 1 and adds exactly this row iff no feed key shares the suffix; otherwise returns 0 and changes nothing; references stay valid |
| Database.Database.UpdateFeed | Database.py:104-139 | insert; or overwrite name, language and country and return 1; or migrate: rekey, repoint `articles.feed_url`, return 1 + the count, leave nothing on the old key; references stay valid |
| Scenarios.NewWebsiteAndFeedScenario | SQLite3.py:141-176 | on a fresh store, inserting a website and then a feed of it leaves exactly those two rows |
| Scenarios.WebsiteMigrationScenario | SQLite3.py:262-304 | after a website and its feed are stored, upserting the website under another scheme returns 2, leaves one website row under the new URL, and the feed names the new URL |
| Scenarios.DistinctRemainderScenario | SQLite3.py:166-176 | a URL whose host or path differs from the only stored website is inserted beside it (result 1, two rows) rather than matched |
| Scenarios.RepeatedUpsertScenario | SQLite3.py:262-273 | upserting a new website twice returns 1 both times and adds exactly one row, holding the given attributes; feeds and articles are untouched |
| Scenarios.StoredAfterKeys | FeedParser.py:34-43 | after the loop has handled some entries, the stored keys are the old keys plus those entries' links |
| Scenarios.StoredAfterKeepsRows | FeedParser.py:34-37 | a row stored before the feed was handled is never overwritten |
| Scenarios.StoredAfterFirstResponse | FeedParser.py:39-43 | a link that was not stored holds the status and content of the parser response for its first occurrence in the feed |
| Scenarios.StoreFeedEntries | FeedParser.py:34-43 | checking `check_if_article_exists` before each `insert_article` means no insert raises; the stored keys become the old keys plus every link; earlier rows are kept; each new link holds its first occurrence's response, with this feed and `now`; feeds and the schema are unchanged |

## Left out

- LIKE semantics: SQLite's LIKE is ASCII case-insensitive and treats `%` and `_` inside the URL as wildcards. The model reads every LIKE as a literal, case-sensitive match.
- Foreign keys are declared but not enforced, because the connection never enables them. `ReferencesValid` is a property the upserts preserve, not a constraint the store checks.
- The per-statement `commit()` calls, durability and the `__del__` close are not modelled. Each method is one atomic transition, except for the committed partial state of the SQLite3 article migration described above.
- The SQL text itself and SQLite's parser are not modelled. The tables are maps, and each statement is a function on them.
- Operations on a store whose tables are missing are not modelled. SQLite would raise "no such table". Opening a store always creates the schema first.
- NOT NULL constraints are not modelled: model strings are never Python `None`, and the only `None` the code passes, an absent feed, is stored as "".
- `SQLite3.Database.GetWebsiteForFeed`: it requires the feed to exist. On a missing feed `SQLite3.py` fails with a TypeError on `None[0]`.
- `Database.get_all_website_urls` is not modelled. It queries a `websites` table that this schema never creates, so it always raises.
- The order of the listed URLs and the row that `fetchone()` picks among several matches are left open.
- The two NameError paths of `SQLite3.py` (lines 255 and 267) are modelled as intended, as described above, not as raising.
- `FeedParser.py` is not modelled, except for its check-then-insert loop. Fetching over HTTP, the `feedparser` library, JSON input and argument parsing are left out.
- `HTTPRequest.py`, `ReadabilityParser.py` and `MercuryParser.py` are not part of this model: they are network and subprocess code. Their responses are inputs to `Scenarios.StoreFeedEntries`.
- A parsed row can be written for an article that is not stored, since `insert_parsed_article` does not check the article. `ReferencesValid` then fails. A later `update_article` migration onto that article's URL can then raise its IntegrityError. The model states this outcome (`ArticleMigration`) but does not rule it out.
- Each store is assumed to open a file whose rows lie only in tables the file has (the constructors' preconditions). SQLite cannot hold rows in a table that does not exist.
- `SQLite3.Database.UpdateArticle`: the model does not prove that a successful parsed_articles cascade keeps that table's size.

## Findings

| source | as written | input that shows it | evidently intended | confidence | as-written member | corrected member |
|---|---|---|---|---|---|---|
| SQLite3.py:85-90 | the `CREATE TABLE IF NOT EXISTS articles (` statement ends with `REFERENCES websites(url);` and never closes its column list, so SQLite raises a syntax error after `websites` and `feeds` are created and before `articles` and `parsed_articles` are | opening a new, empty store file: `_check_if_tables_exist` is false and `_create_tables` raises; every later open fails the same way | close the parenthesis so that all four tables are created | high; not executed | SQLite3.Database.CreateTables, SQLite3.CreateTablesAsWrittenNeverCompletes | SQLite3.Database.CreateTablesIntended, SQLite3.CreateTablesCompletesSchema |
