/** The Article schema, its validators and its pre-save hook. */
module ArticleModel {
  import opened Common
  import Seqs

  /** `status`, one of 'published' and 'draft'. */
  datatype ArticleStatus = Published | Draft

  datatype Comment = Comment(user: UserId, content: string, createdAt: Time)

  datatype Article = Article(
    id: ArticleId, title: string, content: string, summary: Option<string>, author: UserId,
    category: string, tags: seq<string>, status: ArticleStatus, viewCount: nat, likes: nat,
    comments: seq<Comment>, createdAt: Time, updatedAt: Time)

  const DefaultCategory: string := "未分类"
  const MaxTitle: nat := 255
  const MaxSummary: nat := 500

  /** A string's JavaScript `.length`, which Mongoose's `minlength` and `maxlength` measure:
      UTF-16 code units, two for a character outside the Basic Multilingual Plane. */
  function Utf16Length(s: string): (n: nat)
    ensures |s| <= n <= 2 * |s|
    ensures n == |s| <==> forall i :: 0 <= i < |s| ==> s[i] as int < 0x1_0000
    ensures n == 2 * |s| <==> forall i :: 0 <= i < |s| ==> s[i] as int >= 0x1_0000
  {
    if s == [] then 0
    else
      var rest := Utf16Length(s[1..]);
      assert forall i :: 1 <= i < |s| ==> s[i] == s[1..][i - 1];
      (if s[0] as int >= 0x1_0000 then 2 else 1) + rest
  }

  /** The enum check on `status`. */
  function ParseStatus(name: string): (s: Option<ArticleStatus>)
    ensures s == Some(Published) <==> name == "published"
    ensures s == Some(Draft) <==> name == "draft"
  {
    if name == "published" then Some(Published)
    else if name == "draft" then Some(Draft)
    else None
  }

  /** The validators run on save: a title of 1 to 255 UTF-16 code units, non-empty content
      and category, a summary of at most 500 code units, and non-empty comment contents. */
  predicate SchemaValid(a: Article)
  {
    && 1 <= Utf16Length(a.title) <= MaxTitle
    && a.content != ""
    && (a.summary.Some? ==> Utf16Length(a.summary.value) <= MaxSummary)
    && a.category != ""
    && forall i :: 0 <= i < |a.comments| ==> a.comments[i].content != ""
  }

  /** `article.save()`: validation, then the pre-save hook stamping `updatedAt`; a document
      that fails validation is not written and the route answers 500. */
  function Save(a: Article, now: Time): (r: Result<Article>)
    ensures r.Ok? <==> SchemaValid(a)
    ensures r.Ok? ==> r.value.updatedAt == now && r.value.(updatedAt := a.updatedAt) == a
    ensures r.Err? ==> r.failure == ServerError
  {
    if SchemaValid(a) then Ok(a.(updatedAt := now)) else Err(ServerError)
  }

  /** `maxlength` counts code units: a title of 128 characters outside the Basic Multilingual
      Plane is 256 units long and is refused, though it has fewer than 255 characters. */
  lemma WideTitleRefused(a: Article, now: Time)
    requires |a.title| == 128
    requires forall i :: 0 <= i < |a.title| ==> a.title[i] as int >= 0x1_0000
    ensures Save(a, now) == Err(ServerError)
  {
  }

  /** `Article.findById(id)`. */
  function Find(articles: seq<Article>, id: ArticleId): (r: Option<nat>)
    ensures r.Some? ==> r.value < |articles| && articles[r.value].id == id
    ensures r.None? ==> forall i :: 0 <= i < |articles| ==> articles[i].id != id
  {
    Seqs.FirstIndex(articles, (a: Article) => a.id == id)
  }
}
