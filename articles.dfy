/** routes/articles.js: the public article list and page, and the author-or-staff article
    editing routes. Staff status is read from the caller's token claim. */
module Articles {
  import opened Common
  import opened ArticleModel
  import Seqs
  import Html
  import Resolver
  import Storage

  // ---------------------------------------------------------------- listing and pagination

  /** The list query: published only, then the category, the tag and the search text when each
      is non-empty; the search is a literal case-insensitive match on title or content. */
  predicate Listed(a: Article, category: string, tag: string, search: string)
  {
    && a.status == Published
    && (category == [] || a.category == category)
    && (tag == [] || tag in a.tags)
    && (search == [] || Seqs.ContainsIgnoringCase(a.title, search) || Seqs.ContainsIgnoringCase(a.content, search))
  }

  /** `.skip(skip).limit(limit)` on a sorted result; a limit of 0 means no limit. */
  function Window<T>(s: seq<T>, skip: nat, limit: nat): (r: seq<T>)
    ensures |r| <= |s|
    ensures limit > 0 ==> |r| <= limit
    ensures forall i :: 0 <= i < |r| ==> skip + i < |s| && r[i] == s[skip + i]
    ensures skip < |s| ==> |r| == (if limit > 0 && skip + limit <= |s| then limit else |s| - skip)
  {
    if skip >= |s| then []
    else if limit == 0 || skip + limit > |s| then s[skip..]
    else s[skip..skip + limit]
  }

  /** `Math.ceil(total / limit)`: a division by zero is `Infinity` or `NaN`, sent as `null`. */
  function Pages(total: nat, limit: nat): (r: Option<nat>)
    ensures r.None? <==> limit == 0
  {
    if limit == 0 then None else Some((total + limit - 1) / limit)
  }

  /** The page count is the least number of pages of `limit` items that holds `total`. */
  lemma PagesIsCeiling(total: nat, limit: nat)
    requires limit > 0
    ensures Pages(total, limit).value * limit >= total
    ensures total > 0 ==> (Pages(total, limit).value - 1) * limit < total
    ensures total == 0 <==> Pages(total, limit).value == 0
  {
    var p := Pages(total, limit).value;
    var q := total + limit - 1;
    assert q == p * limit + q % limit;
  }

  /** The first `k` pages of size `limit`, one after the other. */
  function FirstPages<T>(s: seq<T>, limit: nat, k: nat): seq<T>
  {
    if k == 0 then [] else FirstPages(s, limit, k - 1) + Window(s, (k - 1) * limit, limit)
  }

  lemma {:induction false} FirstPagesArePrefix<T>(s: seq<T>, limit: nat, k: nat)
    requires limit > 0
    ensures FirstPages(s, limit, k) == s[..if k * limit <= |s| then k * limit else |s|]
  {
    if k > 0 {
      FirstPagesArePrefix(s, limit, k - 1);
      assert (k - 1) * limit + limit == k * limit;
    }
  }

  /** Pages 1 to `pages` together list every matching article exactly once, in order. */
  lemma PagesTile<T>(s: seq<T>, limit: nat)
    requires limit > 0
    ensures FirstPages(s, limit, Pages(|s|, limit).value) == s
  {
    PagesIsCeiling(|s|, limit);
    FirstPagesArePrefix(s, limit, Pages(|s|, limit).value);
  }

  datatype Listing = Listing(articles: seq<Article>, total: nat, pages: Option<nat>, current: int)

  /** The matching articles, newest first. */
  function Matching(articles: seq<Article>, category: string, tag: string, search: string): (r: seq<Article>)
    ensures forall a :: a in r <==> a in articles && Listed(a, category, tag, search)
    ensures forall a :: multiset(r)[a] == if Listed(a, category, tag, search) then multiset(articles)[a] else 0
    ensures forall i, j :: 0 <= i < j < |r| ==> r[i].createdAt >= r[j].createdAt
  {
    var found := Seqs.SortBy(Seqs.Filter(articles, (a: Article) => Listed(a, category, tag, search)),
                             (a: Article) => -(a.createdAt as int));
    assert forall a :: a in found <==> a in multiset(found);
    found
  }

  /** GET /: the page `page` of `limit` matching articles with the total and the page count.
      A page before the first gives a negative skip, which the store rejects (500). */
  function ListArticles(articles: seq<Article>, category: string, tag: string, search: string, page: int, limit: nat)
    : (r: Result<Listing>)
    ensures r.Err? <==> (page - 1) * limit < 0
    ensures r.Err? ==> r.failure == ServerError
    ensures r.Ok? ==> var all := Matching(articles, category, tag, search);
      && r.value.total == |all|
      && r.value.pages == Pages(|all|, limit)
      && r.value.current == page
      && r.value.articles == Window(all, (page - 1) * limit, limit)
    ensures r.Ok? ==> forall a :: a in r.value.articles ==> a in articles && a.status == Published
  {
    var skip := (page - 1) * limit;
    if skip < 0 then Err(ServerError)
    else
      var all := Matching(articles, category, tag, search);
      var shown := Window(all, skip, limit);
      assert forall a :: a in shown ==> a in all;
      Ok(Listing(shown, |all|, Pages(|all|, limit), page))
  }

  // ---------------------------------------------------------------- one article

  /** GET /:id: a missing article is 404; otherwise the view count goes up by one and the
      article is saved, which also stamps `updatedAt`. */
  method GetArticle(st: Storage.Store, id: ArticleId, now: Time) returns (r: Result<Article>)
    modifies st`articles
    ensures Find(old(st.articles), id).None? ==> r == Err(NotFound)
    ensures r.Err? ==> st.articles == old(st.articles)
    ensures Find(old(st.articles), id).Some? ==>
      var i := Find(old(st.articles), id).value;
      var a := old(st.articles)[i];
      if !SchemaValid(a) then r == Err(ServerError)
      else (r.Ok? && st.articles == old(st.articles)[i := r.value]
        && r.value.viewCount == a.viewCount + 1 && r.value.updatedAt == now
        && r.value == a.(viewCount := r.value.viewCount, updatedAt := now))
  {
    var found := Find(st.articles, id);
    if found.None? {
      return Err(NotFound);
    }
    var i := found.value;
    var article := st.articles[i];
    article := article.(viewCount := article.viewCount + 1);
    var saved := Save(article, now);
    if saved.Err? {
      return Err(saved.failure);
    }
    st.articles := st.articles[i := saved.value];
    r := saved;
  }

  predicate FreshId(articles: seq<Article>, id: ArticleId)
  {
    forall i :: 0 <= i < |articles| ==> articles[i].id != id
  }

  /** The status field as the routes set it: `status || 'published'`, then the enum check. */
  function StatusOrDefault(status: string): (r: Option<ArticleStatus>)
    ensures status == [] ==> r == Some(Published)
    ensures status != [] ==> r == ParseStatus(status)
  {
    if status == [] then Some(Published) else ParseStatus(status)
  }

  /** The document the create route builds: the title and a non-empty summary escaped, the
      content as given, and the schema's defaults for what is missing. */
  function Drafted(id: ArticleId, author: UserId, title: string, content: string, summary: string,
                   category: string, tags: Option<seq<string>>, status: ArticleStatus, now: Time): (a: Article)
    ensures a.title == Html.Escape(title) && a.content == content && a.author == author
    ensures a.summary == (if summary == [] then None else Some(Html.Escape(summary)))
    ensures a.category == (if category == [] then DefaultCategory else category)
    ensures a.tags == (if tags.None? then [] else tags.value)
    ensures a.viewCount == 0 && a.likes == 0 && a.comments == [] && a.createdAt == now
  {
    Article(id, Html.Escape(title), content, if summary == [] then None else Some(Html.Escape(summary)),
            author, if category == [] then DefaultCategory else category,
            if tags.None? then [] else tags.value, status, 0, 0, [], now, now)
  }

  /** POST /: an empty title or content is 400; an unknown status or a document the
      validators reject (an escaped title over 255 characters, say) is 500. */
  method Create(st: Storage.Store, caller: Resolver.Claim, id: ArticleId, title: string, content: string,
                summary: string, category: string, tags: Option<seq<string>>, status: string, now: Time)
    returns (r: Result<Article>)
    requires FreshId(st.articles, id)
    modifies st`articles
    ensures title == [] || content == [] ==> r == Err(BadRequest)
    ensures title != [] && content != [] && StatusOrDefault(status).None? ==> r == Err(ServerError)
    ensures r.Err? ==> st.articles == old(st.articles)
    ensures title != [] && content != [] && StatusOrDefault(status).Some? ==>
      var a := Drafted(id, caller.id, title, content, summary, category, tags, StatusOrDefault(status).value, now);
      && r == Save(a, now)
      && (r.Ok? ==> st.articles == old(st.articles) + [r.value])
    ensures r.Ok? ==> Html.Unescape(r.value.title) == title && r.value.updatedAt == now
  {
    if title == [] || content == [] {
      return Err(BadRequest);
    }
    var parsed := StatusOrDefault(status);
    if parsed.None? {
      return Err(ServerError);
    }
    var article := Drafted(id, caller.id, title, content, summary, category, tags, parsed.value, now);
    r := Save(article, now);
    if r.Ok? {
      st.articles := st.articles + [r.value];
    }
    Html.UnescapeEscape(title);
  }

  /** The author, or a caller whose claim is admin or owner. */
  predicate MayEdit(a: Article, caller: Resolver.Claim)
  {
    a.author == caller.id || caller.role == "admin" || caller.role == "owner"
  }

  /** The update route's merge: a field is replaced only by a truthy value; a supplied tag
      list is truthy even when empty. */
  function Merged(a: Article, title: string, content: string, summary: string, category: string,
                  tags: Option<seq<string>>, status: ArticleStatus): (b: Article)
    ensures b.title == (if title == [] then a.title else Html.Escape(title))
    ensures b.content == (if content == [] then a.content else content)
    ensures b.summary == (if summary == [] then a.summary else Some(Html.Escape(summary)))
    ensures b.category == (if category == [] then a.category else category)
    ensures b.tags == (if tags.None? then a.tags else tags.value)
    ensures b.status == status
    ensures b == a.(title := b.title, content := b.content, summary := b.summary, category := b.category,
                    tags := b.tags, status := b.status)
  {
    a.(title := if title == [] then a.title else Html.Escape(title),
       content := if content == [] then a.content else content,
       summary := if summary == [] then a.summary else Some(Html.Escape(summary)),
       category := if category == [] then a.category else category,
       tags := if tags.None? then a.tags else tags.value,
       status := status)
  }

  /** An update that supplies nothing changes nothing but the save stamp. */
  lemma EmptyUpdateKeepsArticle(a: Article)
    ensures Merged(a, [], [], [], [], None, a.status) == a
  {
  }

  /** PUT /:id: 404, then author or staff (403); the merge; then the save (500 when the status
      is unknown or the validators reject the result). */
  method Update(st: Storage.Store, caller: Resolver.Claim, id: ArticleId, title: string, content: string,
                summary: string, category: string, tags: Option<seq<string>>, status: string, now: Time)
    returns (r: Result<Article>)
    modifies st`articles
    ensures Find(old(st.articles), id).None? ==> r == Err(NotFound)
    ensures r.Err? ==> st.articles == old(st.articles)
    ensures Find(old(st.articles), id).Some? ==>
      var i := Find(old(st.articles), id).value;
      var a := old(st.articles)[i];
      if !MayEdit(a, caller) then r == Err(Forbidden)
      else if status != [] && ParseStatus(status).None? then r == Err(ServerError)
      else
        var s := if status == [] then a.status else ParseStatus(status).value;
        && r == Save(Merged(a, title, content, summary, category, tags, s), now)
        && (r.Ok? ==> st.articles == old(st.articles)[i := r.value])
  {
    var found := Find(st.articles, id);
    if found.None? {
      return Err(NotFound);
    }
    var i := found.value;
    var article := st.articles[i];
    if article.author != caller.id && caller.role != "admin" && caller.role != "owner" {
      return Err(Forbidden);
    }
    var s := article.status;
    if status != [] {
      var parsed := ParseStatus(status);
      if parsed.None? {
        return Err(ServerError);
      }
      s := parsed.value;
    }
    article := Merged(article, title, content, summary, category, tags, s);
    r := Save(article, now);
    if r.Ok? {
      st.articles := st.articles[i := r.value];
    }
  }

  /** DELETE /:id: 404, then author or staff (403). */
  method Delete(st: Storage.Store, caller: Resolver.Claim, id: ArticleId) returns (r: Result<()>)
    modifies st`articles
    ensures Find(old(st.articles), id).None? ==> r == Err(NotFound)
    ensures r.Err? ==> st.articles == old(st.articles)
    ensures Find(old(st.articles), id).Some? ==>
      var i := Find(old(st.articles), id).value;
      if !MayEdit(old(st.articles)[i], caller) then r == Err(Forbidden)
      else (r == Ok(()) && st.articles == old(st.articles)[..i] + old(st.articles)[i + 1..])
  {
    var found := Find(st.articles, id);
    if found.None? {
      return Err(NotFound);
    }
    var i := found.value;
    if !MayEdit(st.articles[i], caller) {
      return Err(Forbidden);
    }
    st.articles := st.articles[..i] + st.articles[i + 1..];
    r := Ok(());
  }

  /** POST /:id/comment: 404, then empty content (400); one escaped comment is appended and
      the earlier comments are kept. */
  method AddComment(st: Storage.Store, caller: Resolver.Claim, id: ArticleId, content: string, now: Time)
    returns (r: Result<Article>)
    modifies st`articles
    ensures Find(old(st.articles), id).None? ==> r == Err(NotFound)
    ensures Find(old(st.articles), id).Some? && content == [] ==> r == Err(BadRequest)
    ensures r.Err? ==> st.articles == old(st.articles)
    ensures Find(old(st.articles), id).Some? && content != [] ==>
      var i := Find(old(st.articles), id).value;
      var a := old(st.articles)[i];
      && r == Save(a.(comments := a.comments + [Comment(caller.id, Html.Escape(content), now)]), now)
      && (r.Ok? ==> st.articles == old(st.articles)[i := r.value])
    ensures r.Ok? ==> (|r.value.comments| >= 1
      && r.value.comments[..|r.value.comments| - 1] == old(st.articles)[Find(old(st.articles), id).value].comments
      && Html.Unescape(r.value.comments[|r.value.comments| - 1].content) == content)
  {
    var found := Find(st.articles, id);
    if found.None? {
      return Err(NotFound);
    }
    if content == [] {
      return Err(BadRequest);
    }
    var i := found.value;
    var article := st.articles[i];
    var comment := Comment(caller.id, Html.Escape(content), now);
    article := article.(comments := article.comments + [comment]);
    r := Save(article, now);
    if r.Ok? {
      st.articles := st.articles[i := r.value];
    }
    Html.UnescapeEscape(content);
  }
}
