/**
 * The cache keys of the news and search handlers (index.js:98, index.js:131)
 * and of the latest-English-news route (index.js:229, index.js:250).
 */
module CacheKeys {
  import opened Wrappers

  const NewsPrefix: string := "news-"
  const SearchPrefix: string := "search-"
  const PageInfix: string := "-page-"

  /** The key under which `fetchEnglishNews` stores its combined articles. */
  const LatestEnglishKey: string := "englishNews"

  /** The languages `handleNewsRequest` is called with. */
  const NewsLanguages: set<string> := {"te", "en"}

  /** `nextPage ? … : …`: a page parameter counts only when present and non-empty. */
  predicate HasPage(page: Option<string>)
  {
    page.Some? && page.value != ""
  }

  /** The page a key carries: an absent and an empty page parameter are the same. */
  function EffectivePage(page: Option<string>): Option<string>
  {
    if HasPage(page) then page else None
  }

  /** What a template literal prints for a query parameter that may be `undefined`. */
  function Render(param: Option<string>): string
  {
    if param.Some? then param.value else "undefined"
  }

  /** `news-<language>[-page-<page>]`. */
  function NewsKey(language: string, page: Option<string>): (key: string)
    ensures |NewsPrefix| + |language| <= |key|
    ensures key[..|NewsPrefix|] == NewsPrefix
    ensures key[|NewsPrefix|..|NewsPrefix| + |language|] == language
    ensures HasPage(page) <==> |key| > |NewsPrefix| + |language|
  {
    if HasPage(page) then NewsPrefix + language + PageInfix + page.value
    else NewsPrefix + language
  }

  /** `search-<language>-<q>-<category>[-page-<page>]`. */
  function SearchKey(language: string, q: Option<string>, category: Option<string>, page: Option<string>): (key: string)
    ensures |SearchBase(language, q, category)| <= |key|
    ensures key[..|SearchBase(language, q, category)|] == SearchBase(language, q, category)
    ensures key[..|SearchPrefix|] == SearchPrefix
    ensures HasPage(page) <==> |key| > |SearchBase(language, q, category)|
  {
    if HasPage(page) then SearchBase(language, q, category) + PageInfix + page.value
    else SearchBase(language, q, category)
  }

  /** The part of a search key that does not depend on the page. */
  function SearchBase(language: string, q: Option<string>, category: Option<string>): (base: string)
    ensures |SearchPrefix| <= |base|
    ensures base[..|SearchPrefix|] == SearchPrefix
  {
    SearchPrefix + language + "-" + Render(q) + "-" + Render(category)
  }

  /**
   * Two news keys of the handler's languages are equal exactly when they
   * name the same language and the same effective page: a page always gives
   * a key distinct from the page-less one, and distinct pages distinct keys.
   */
  lemma NewsKeyInjective(language1: string, page1: Option<string>, language2: string, page2: Option<string>)
    requires language1 in NewsLanguages && language2 in NewsLanguages
    ensures NewsKey(language1, page1) == NewsKey(language2, page2)
        <==> language1 == language2 && EffectivePage(page1) == EffectivePage(page2)
  {
    var k1, k2 := NewsKey(language1, page1), NewsKey(language2, page2);
    if k1 == k2 {
      assert language1 == k1[5..7] == k2[5..7] == language2;
      if HasPage(page1) && HasPage(page2) {
        var n := |NewsPrefix + language1 + PageInfix|;
        assert page1.value == k1[n..] == k2[n..] == page2.value;
      }
    }
  }

  /**
   * For one language, query and category, two search keys are equal exactly
   * when their effective pages are equal.
   */
  lemma SearchKeyDistinguishesPages(language: string, q: Option<string>, category: Option<string>,
                                    page1: Option<string>, page2: Option<string>)
    ensures SearchKey(language, q, category, page1) == SearchKey(language, q, category, page2)
        <==> EffectivePage(page1) == EffectivePage(page2)
  {
    var k1, k2 := SearchKey(language, q, category, page1), SearchKey(language, q, category, page2);
    if k1 == k2 && HasPage(page1) && HasPage(page2) {
      var n := |SearchBase(language, q, category) + PageInfix|;
      assert page1.value == k1[n..] == k2[n..] == page2.value;
    }
  }

  /** The three key families never meet: news, search and latest-English keys are pairwise distinct. */
  lemma KeyFamiliesDisjoint(language: string, page: Option<string>,
                            searchLanguage: string, q: Option<string>, category: Option<string>, searchPage: Option<string>)
    ensures NewsKey(language, page) != SearchKey(searchLanguage, q, category, searchPage)
    ensures NewsKey(language, page) != LatestEnglishKey
    ensures SearchKey(searchLanguage, q, category, searchPage) != LatestEnglishKey
  {
    var news, search := NewsKey(language, page), SearchKey(searchLanguage, q, category, searchPage);
    assert news[0] == NewsPrefix[0] == 'n';
    assert search[0] == SearchPrefix[0] == 's';
    assert LatestEnglishKey[0] == 'e';
  }

  /**
   * Search keys do not identify the request: a missing query prints as
   * `undefined`, and a category containing `-page-` imitates a page.
   */
  lemma SearchKeyCollisions()
    ensures SearchKey("te", None, None, None) == SearchKey("te", Some("undefined"), Some("undefined"), None)
    ensures SearchKey("te", Some("cricket"), Some("sports-page-2"), None)
         == SearchKey("te", Some("cricket"), Some("sports"), Some("2"))
  {
  }
}
