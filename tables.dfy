/**
  Tables of the catalog, seen abstractly: a table is a map from its URL
  primary key to the rest of its row (so keys are unique by construction),
  and each SQL statement the catalog issues is a function on such maps.

  - `ItemExists` is the existence query, exact or `ignore_protocol`.
  - `Rekey` is `UPDATE t SET url = new, ... WHERE url = old`.
  - `Repoint` is `UPDATE t SET col = new WHERE col = old` on a foreign-key
    column; its `rowcount` is the size of `Referencing(t, col, old)`.
  - `RepointParsed` is the same statement on `parsed_articles`, whose key
    `(article, parser)` contains the rewritten column.
  - `ListKeys` is `SELECT url FROM t` turned into a Python list.
 */
module Tables {
  import opened Urls

  datatype Option<T> = None | Some(value: T)

  /** Existence query on a table's keys: `url LIKE ?` with the literal URL,
      or with `'%' + url[url.find("://"):]` when `ignoreProtocol` is set. */
  predicate ItemExists(keys: set<Url>, url: Url, ignoreProtocol: bool)
  {
    if ignoreProtocol then exists k :: k in keys && EndsWith(k, SchemeSuffix(url))
    else url in keys
  }

  /** An exact hit is also an `ignore_protocol` hit; so when the
      `ignore_protocol` query fails, the URL is not a key and an INSERT of it
      cannot violate the primary key (the `assert c.rowcount == 1` of `SQLite3.py`). */
  lemma ExactMatchIsSuffixMatch(keys: set<Url>, url: Url)
    ensures ItemExists(keys, url, false) ==> ItemExists(keys, url, true)
  {
    if url in keys {
      assert EndsWith(url, SchemeSuffix(url));
    }
  }

  /** After a URL has been inserted, an insert of it (or of the same URL
      under another scheme) is refused: inserting is idempotent. */
  lemma InsertedUrlBlocksReinsert(keys: set<Url>, url: Url, scheme1: string, scheme2: string, rest: string)
    ensures ItemExists(keys + {url}, url, true)
    ensures url == scheme1 + Separator + rest && ':' !in scheme1 && ':' !in scheme2 ==>
              ItemExists(keys + {url}, scheme2 + Separator + rest, true)
  {
    ExactMatchIsSuffixMatch(keys + {url}, url);
    if url == scheme1 + Separator + rest && ':' !in scheme1 && ':' !in scheme2 {
      SchemeChangeMatches(scheme1, scheme2, rest);
    }
  }

  /** Keys of the rows of `t` whose column `col` holds `target`. */
  function Referencing<R>(t: map<Url, R>, col: R -> Url, target: Url): set<Url>
  {
    set k | k in t && col(t[k]) == target
  }

  /** `col` reads back what `setCol` writes. */
  ghost predicate IsColumn<R(!new)>(col: R -> Url, setCol: (R, Url) -> R)
  {
    forall row, u :: col(setCol(row, u)) == u
  }

  /** `UPDATE t SET col = newUrl WHERE col = oldUrl`: every row that referenced
      the old key references the new one and nothing else changes. */
  function Repoint<R(!new)>(t: map<Url, R>, col: R -> Url, setCol: (R, Url) -> R, oldUrl: Url, newUrl: Url): (r: map<Url, R>)
    requires IsColumn(col, setCol)
    ensures r.Keys == t.Keys
    ensures forall k :: k in t && col(t[k]) != oldUrl ==> r[k] == t[k]
    ensures forall k :: k in t && col(t[k]) == oldUrl ==> r[k] == setCol(t[k], newUrl)
    ensures oldUrl != newUrl ==> Referencing(r, col, oldUrl) == {}
  {
    map k | k in t :: if col(t[k]) == oldUrl then setCol(t[k], newUrl) else t[k]
  }

  /** After the cascade, the rows that reference the new key are exactly those
      that referenced it before plus those that referenced the old key, so
      the statement's rowcount is the number of references gained. */
  lemma RepointMovesReferences<R(!new)>(t: map<Url, R>, col: R -> Url, setCol: (R, Url) -> R, oldUrl: Url, newUrl: Url)
    requires IsColumn(col, setCol)
    requires oldUrl != newUrl
    ensures Referencing(Repoint(t, col, setCol, oldUrl, newUrl), col, newUrl)
            == Referencing(t, col, newUrl) + Referencing(t, col, oldUrl)
    ensures |Referencing(Repoint(t, col, setCol, oldUrl, newUrl), col, newUrl)|
            == |Referencing(t, col, newUrl)| + |Referencing(t, col, oldUrl)|
  {
    var r := Repoint(t, col, setCol, oldUrl, newUrl);
    var before, moved := Referencing(t, col, newUrl), Referencing(t, col, oldUrl);
    assert Referencing(r, col, newUrl) == before + moved;
    assert before * moved == {};
  }

  /** `UPDATE t SET url = newUrl, ... WHERE url = oldUrl` when `oldUrl` is a
      key and `newUrl` is not: exactly one row is affected, it now has key
      `newUrl` and contents `row`, and the table keeps its size. */
  function Rekey<R>(t: map<Url, R>, oldUrl: Url, newUrl: Url, row: R): (r: map<Url, R>)
    requires oldUrl in t && newUrl !in t
    ensures r.Keys == t.Keys - {oldUrl} + {newUrl}
    ensures |r| == |t|
    ensures r[newUrl] == row
    ensures forall k :: k in t && k != oldUrl ==> r[k] == t[k]
  {
    var r := (t - {oldUrl})[newUrl := row];
    assert r.Keys == t.Keys - {oldUrl} + {newUrl};
    assert |t.Keys - {oldUrl}| == |t.Keys| - 1;
    r
  }

  /** Every value of column `col` in `t` is a key of the parent table or one
      of the `allowed` placeholders: no row points at a missing parent. */
  ghost predicate RefersInto<R>(t: map<Url, R>, col: R -> Url, parentKeys: set<Url>, allowed: set<Url>)
  {
    forall k :: k in t ==> col(t[k]) in parentKeys || col(t[k]) in allowed
  }

  /** A migration (parent key rewrite followed by the cascade into a child
      column) leaves no child row pointing at a missing parent. */
  lemma MigrationKeepsReferencesValid<R(!new), P>(parent: map<Url, P>, child: map<Url, R>, col: R -> Url, setCol: (R, Url) -> R,
                                            oldUrl: Url, newUrl: Url, row: P, allowed: set<Url>)
    requires IsColumn(col, setCol)
    requires oldUrl in parent && newUrl !in parent
    requires RefersInto(child, col, parent.Keys, allowed)
    ensures RefersInto(Repoint(child, col, setCol, oldUrl, newUrl), col, Rekey(parent, oldUrl, newUrl, row).Keys, allowed)
  {
    var r := Repoint(child, col, setCol, oldUrl, newUrl);
    var keys := Rekey(parent, oldUrl, newUrl, row).Keys;
    forall k | k in r
      ensures col(r[k]) in keys || col(r[k]) in allowed
    {
      if col(child[k]) == oldUrl {
        assert col(r[k]) == newUrl;
      }
    }
  }

  /** The key of `parsed_articles`: (article url, parser name). */
  type ParsedKey = (Url, string)

  /** Rows of `parsed_articles` whose `article` column holds `article`. */
  function ParsedOf<V>(p: map<ParsedKey, V>, article: Url): set<ParsedKey>
  {
    set k | k in p && k.0 == article
  }

  /** `UPDATE parsed_articles SET article = new WHERE article = old` would
      give two rows the key `(new, parser)` for some parser: SQLite refuses
      the statement with an IntegrityError. */
  predicate ParsedConflict<V>(p: map<ParsedKey, V>, oldUrl: Url, newUrl: Url)
  {
    exists k :: k in p && k.0 == oldUrl && (newUrl, k.1) in p
  }

  /** `UPDATE parsed_articles SET article = newUrl WHERE article = oldUrl`
      when it succeeds: each `(oldUrl, parser)` row moves to
      `(newUrl, parser)` with its content, every other row stays, and no row
      keeps the old article. */
  function RepointParsed<V>(p: map<ParsedKey, V>, oldUrl: Url, newUrl: Url): (r: map<ParsedKey, V>)
    requires oldUrl != newUrl && !ParsedConflict(p, oldUrl, newUrl)
    ensures forall k :: k in p && k.0 != oldUrl ==> k in r && r[k] == p[k]
    ensures forall k :: k in p && k.0 == oldUrl ==> (newUrl, k.1) in r && r[(newUrl, k.1)] == p[k]
    ensures forall k :: k in r ==> (k in p && k.0 != oldUrl) || (k.0 == newUrl && (oldUrl, k.1) in p)
    ensures ParsedOf(r, oldUrl) == {}
  {
    map k | k in (set k | k in p && k.0 != oldUrl) + (set k | k in p && k.0 == oldUrl :: (newUrl, k.1))
      :: if k.0 == newUrl && (oldUrl, k.1) in p then p[(oldUrl, k.1)] else p[k]
  }

  /** The cascade into `parsed_articles` keeps every parsed row attached to an
      article key when the article key itself was rewritten. */
  lemma ParsedMigrationKeepsReferencesValid<A, V>(articles: map<Url, A>, p: map<ParsedKey, V>, oldUrl: Url, newUrl: Url, row: A)
    requires oldUrl in articles && newUrl !in articles
    requires !ParsedConflict(p, oldUrl, newUrl)
    requires forall k :: k in p ==> k.0 in articles
    ensures forall k :: k in RepointParsed(p, oldUrl, newUrl) ==> k.0 in Rekey(articles, oldUrl, newUrl, row)
  {
  }

  /** `[x[0] for x in c.fetchall()]` after `SELECT url FROM t`: every key
      exactly once, in an order the model leaves open. */
  method ListKeys<R>(t: map<Url, R>) returns (urls: seq<Url>)
    ensures |urls| == |t|
    ensures forall u :: u in urls <==> u in t
    ensures forall i, j :: 0 <= i < j < |urls| ==> urls[i] != urls[j]
  {
    urls := [];
    var rest := t.Keys;
    while rest != {}
      invariant rest <= t.Keys
      invariant forall u :: u in urls <==> u in t.Keys - rest
      invariant forall i, j :: 0 <= i < j < |urls| ==> urls[i] != urls[j]
      invariant |urls| + |rest| == |t.Keys|
      decreases |rest|
    {
      var u :| u in rest;
      assert u !in urls;   // listed keys are no longer in `rest`
      urls := urls + [u];
      rest := rest - {u};
    }
  }
}
