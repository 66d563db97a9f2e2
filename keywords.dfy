/** Keyword matching, the rule every categorisation path shares: a keyword matches
    a transaction when, both lower-cased, the keyword occurs in the transaction's
    match text. */
module Keywords {
  import opened Text

  /** The keyword, lower-cased, occurs in the lower-cased text. */
  predicate KeywordOccurs(text: string, keyword: string) {
    Contains(ToLower(text), ToLower(keyword))
  }

  /** `matchesKeywords(text, keywords)`: `keywords.some(...)`, scanning from the front. */
  predicate MatchesKeywords(text: string, keywords: seq<string>) {
    keywords != [] && (KeywordOccurs(text, keywords[0]) || MatchesKeywords(text, keywords[1..]))
  }

  /** The scan finds a match exactly when some keyword of the list occurs. */
  lemma {:induction false} MatchesKeywordsIff(text: string, keywords: seq<string>)
    ensures MatchesKeywords(text, keywords) <==> exists k :: k in keywords && KeywordOccurs(text, k)
  {
    if keywords != [] {
      MatchesKeywordsIff(text, keywords[1..]);
      assert forall k :: k in keywords <==> k == keywords[0] || k in keywords[1..];
    }
  }

  /** Only the set of keywords matters, not their order or repetition. */
  lemma MatchesSameKeywords(text: string, a: seq<string>, b: seq<string>)
    requires forall k :: k in a <==> k in b
    ensures MatchesKeywords(text, a) <==> MatchesKeywords(text, b)
  {
    MatchesKeywordsIff(text, a);
    MatchesKeywordsIff(text, b);
  }

  /** A longer keyword list matches whatever a shorter one matches. */
  lemma MatchesMoreKeywords(text: string, a: seq<string>, b: seq<string>)
    requires forall k :: k in a ==> k in b
    ensures MatchesKeywords(text, a) ==> MatchesKeywords(text, b)
  {
    MatchesKeywordsIff(text, a);
    MatchesKeywordsIff(text, b);
  }

  /** Appending a keyword adds exactly its own matches. */
  lemma MatchesAppend(text: string, keywords: seq<string>, k: string)
    ensures MatchesKeywords(text, keywords + [k]) <==> MatchesKeywords(text, keywords) || KeywordOccurs(text, k)
  {
    MatchesKeywordsIff(text, keywords);
    MatchesKeywordsIff(text, keywords + [k]);
    assert forall x :: x in keywords + [k] <==> x in keywords || x == k;
  }

  lemma LowerOfUpper(s: string)
    ensures ToLower(ToUpper(s)) == ToLower(s)
  {
  }

  /** Matching ignores the case of the text. */
  lemma MatchesIgnoresCase(text: string, keywords: seq<string>)
    ensures MatchesKeywords(ToUpper(text), keywords) <==> MatchesKeywords(text, keywords)
  {
    MatchesKeywordsIff(text, keywords);
    MatchesKeywordsIff(ToUpper(text), keywords);
    LowerOfUpper(text);
  }

  /** A blank keyword occurs in every text, so a list holding one matches everything. */
  lemma EmptyKeywordMatchesAll(text: string, keywords: seq<string>)
    requires "" in keywords
    ensures MatchesKeywords(text, keywords)
  {
    MatchesKeywordsIff(text, keywords);
    assert OccursAt(ToLower(text), ToLower(""), 0);
  }
}
