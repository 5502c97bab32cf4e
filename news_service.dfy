/** `MockNewsService` of frontend/src/services/newsService.ts: the five stored
    articles, the keyword search with its fallback, and the recommendation, which
    takes the first four articles of a shuffled copy. The shuffle is random, so the
    shuffled order is a parameter: any arrangement of the stored articles. */
module NewsService {
  import opened Wrappers
  import opened JsText

  /** `NewsArticle`. */
  datatype Article = Article(
    id: string, title: string, summary: string, url: string, publishedAt: string,
    source: string, category: string, imageUrl: Option<string>)

  const Articles: seq<Article> := [
    Article("news-1", "科技创新推动数字化转型",
      "最新研究显示，人工智能和机器学习技术正在各行各业中发挥重要作用，推动企业数字化转型进程。",
      "#", "2024-02-03T10:30:00Z", "科技日报", "科技", Some("https://via.placeholder.com/300x200?text=科技新闻")),
    Article("news-2", "全球气候变化应对措施",
      "联合国气候变化大会达成新协议，各国承诺加大减排力度，共同应对全球气候变化挑战。",
      "#", "2024-02-03T09:15:00Z", "环球时报", "环境", Some("https://via.placeholder.com/300x200?text=环境新闻")),
    Article("news-3", "经济复苏势头良好",
      "最新经济数据显示，多个主要经济体呈现复苏态势，消费者信心指数持续上升。",
      "#", "2024-02-03T08:45:00Z", "财经周刊", "经济", Some("https://via.placeholder.com/300x200?text=经济新闻")),
    Article("news-4", "教育改革新政策发布",
      "教育部发布新的教育改革政策，重点关注素质教育和创新能力培养。",
      "#", "2024-02-03T07:20:00Z", "教育报", "教育", Some("https://via.placeholder.com/300x200?text=教育新闻")),
    Article("news-5", "健康生活方式推广",
      "专家建议采用健康的生活方式，包括合理饮食、适量运动和充足睡眠。",
      "#", "2024-02-03T06:00:00Z", "健康时报", "健康", Some("https://via.placeholder.com/300x200?text=健康新闻"))
  ]

  /** How many articles the fallback and the recommendation return. */
  const FallbackCount: nat := 3
  const RecommendedCount: nat := 4

  /** The search test: the title, the summary or the category includes the query. */
  predicate Matches(a: Article, q: string) {
    Includes(a.title, q) || Includes(a.summary, q) || Includes(a.category, q)
  }

  /** `a` occurs in `b` in order, possibly with gaps. */
  predicate Subsequence(a: seq<Article>, b: seq<Article>)
    decreases |b|
  {
    a == [] || (b != [] && ((a[0] == b[0] && Subsequence(a[1..], b[1..])) || Subsequence(a, b[1..])))
  }

  /** `articles.filter(a => matches(a, q))`: exactly the matching articles. */
  function Filter(articles: seq<Article>, q: string): (r: seq<Article>)
    ensures forall a :: a in r <==> a in articles && Matches(a, q)
    ensures |r| <= |articles|
  {
    if articles == [] then []
    else (if Matches(articles[0], q) then [articles[0]] else []) + Filter(articles[1..], q)
  }

  /** The filter keeps the list order. */
  lemma {:induction false} FilterKeepsOrder(articles: seq<Article>, q: string)
    ensures Subsequence(Filter(articles, q), articles)
  {
    if articles != [] {
      FilterKeepsOrder(articles[1..], q);
      var rest := Filter(articles[1..], q);
      if Matches(articles[0], q) {
        assert ([articles[0]] + rest)[1..] == rest;
      } else {
        assert [] + rest == rest;
      }
    }
  }

  /** When every article matches, the filter returns the whole list. */
  lemma {:induction false} FilterAll(articles: seq<Article>, q: string)
    requires forall i :: 0 <= i < |articles| ==> Matches(articles[i], q)
    ensures Filter(articles, q) == articles
  {
    if articles != [] {
      FilterAll(articles[1..], q);
    }
  }

  /** `searchNews(q)`: the matching articles, or the first three when none match. */
  function SearchNews(q: string): (r: seq<Article>)
    ensures Filter(Articles, q) != [] ==> r == Filter(Articles, q)
    ensures Filter(Articles, q) == [] ==> r == Articles[..FallbackCount]
    ensures forall a :: a in r ==> a in Articles
  {
    var filtered := Filter(Articles, q);
    if |filtered| > 0 then filtered else Articles[..FallbackCount]
  }

  /** The search never comes back empty, and what it returns is in list order. */
  lemma SearchNewsNonEmpty(q: string)
    ensures SearchNews(q) != [] && Subsequence(SearchNews(q), Articles)
  {
    FilterKeepsOrder(Articles, q);
    if Filter(Articles, q) == [] {
      PrefixIsSubsequence(Articles, FallbackCount);
    }
  }

  /** A prefix occurs in order. */
  lemma {:induction false} PrefixIsSubsequence(s: seq<Article>, n: nat)
    requires n <= |s|
    ensures Subsequence(s[..n], s)
  {
    if n > 0 {
      PrefixIsSubsequence(s[1..], n - 1);
      assert s[..n][1..] == s[1..][..n - 1];
    }
  }

  /** Every text includes the empty query, so it returns every article. */
  lemma SearchNewsEmptyQuery()
    ensures SearchNews("") == Articles
  {
    forall i | 0 <= i < |Articles| ensures Matches(Articles[i], "") {
      IncludesEmpty(Articles[i].title);
    }
    FilterAll(Articles, "");
  }

  /** `getRecommendedNews`: the first four of the shuffled copy. */
  function RecommendedNews(shuffled: seq<Article>): (r: seq<Article>)
    requires multiset(shuffled) == multiset(Articles)
    ensures |r| == RecommendedCount
    ensures forall a :: a in r ==> a in Articles
    ensures forall i, j :: 0 <= i < j < |r| ==> r[i] != r[j]
  {
    assert |shuffled| == |multiset(Articles)| == |Articles|;
    var r := shuffled[..RecommendedCount];
    forall a | a in r ensures a in Articles {
      assert a in multiset(shuffled);
    }
    ShuffledDistinct(shuffled);
    r
  }

  /** No two entries of the list are equal. */
  predicate Distinct(s: seq<Article>) {
    forall i, j :: 0 <= i < j < |s| ==> s[i] != s[j]
  }

  /** In a list without repeats, each article occurs at most once. */
  lemma {:induction false} DistinctCount(s: seq<Article>, x: Article)
    requires Distinct(s)
    ensures multiset(s)[x] <= 1
  {
    if s != [] {
      DistinctCount(s[1..], x);
      assert s == [s[0]] + s[1..];
      if s[0] == x {
        assert x !in s[1..];
      }
    }
  }

  /** An article at two positions occurs at least twice. */
  lemma RepeatCount(s: seq<Article>, i: nat, j: nat)
    requires i < j < |s|
    ensures multiset(s)[s[j]] >= (if s[i] == s[j] then 2 else 1)
  {
    var a, m, z := s[..i], s[i + 1..j], s[j + 1..];
    assert s == a + [s[i]] + m + [s[j]] + z;
    assert multiset(s) == multiset(a) + multiset{s[i]} + multiset(m) + multiset{s[j]} + multiset(z);
  }

  /** The stored articles are all different, so any arrangement of them is too. */
  lemma ShuffledDistinct(shuffled: seq<Article>)
    requires multiset(shuffled) == multiset(Articles)
    ensures Distinct(shuffled)
  {
    assert Distinct(Articles) by {
      forall i, j | 0 <= i < j < |Articles| ensures Articles[i] != Articles[j] {
        assert Articles[i].id[5] != Articles[j].id[5];
      }
    }
    forall i, j | 0 <= i < j < |shuffled| ensures shuffled[i] != shuffled[j] {
      RepeatCount(shuffled, i, j);
      DistinctCount(Articles, shuffled[j]);
    }
  }
}
