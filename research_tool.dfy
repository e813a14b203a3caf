/**
 * WebResearchTool: search, credibility filter, extraction, per-page analysis
 * and synthesis. The search API, the page fetch, the language-model calls and
 * the clock are not called from here: their outcomes are parameters.
 */
module ResearchTool {
  import opened Wrappers
  import opened Json
  import opened PyBuiltins
  import opened UrlParse
  import opened Pipeline

  class WebResearchTool {
    const anthropicApiKey: string
    const googleApiKey: string
    const googleCseId: string
    /** The most sources one research run analyses. */
    const maxUrls: int

    constructor (anthropicApiKey: string, googleApiKey: string, googleCseId: string, maxUrls: int := 5)
      ensures this.anthropicApiKey == anthropicApiKey
      ensures this.googleApiKey == googleApiKey && this.googleCseId == googleCseId
      ensures this.maxUrls == maxUrls
    {
      this.anthropicApiKey := anthropicApiKey;
      this.googleApiKey := googleApiKey;
      this.googleCseId := googleCseId;
      this.maxUrls := maxUrls;
    }

    /** Builds one candidate per search item; any failure yields no candidates at all. */
    method SearchUrls(reply: SearchReply) returns (searchResults: seq<Candidate>)
      ensures searchResults == SearchResults(reply)
      ensures forall c :: c in searchResults ==> Netloc(c.url) == Some(c.source)
    {
      if reply.SearchRaised? || reply.items.None? {
        return [];
      }
      var items := reply.items.value;
      searchResults := [];
      var i := 0;
      while i < |items|
        invariant 0 <= i <= |items|
        invariant Candidates(items[..i]) == Some(searchResults)
      {
        var item := items[i];
        assert items[..i + 1] == items[..i] + [item];
        if item.link.None? || item.title.None? || item.snippet.None? {
          assert CandidateOf(items[i]).None?;
          return [];
        }
        var source := Netloc(item.link.value);
        if source.None? {
          assert CandidateOf(items[i]).None?;
          return [];
        }
        var candidate := Candidate(item.link.value, item.title.value, item.snippet.value, source.value);
        assert CandidateOf(item) == Some(candidate);
        searchResults := searchResults + [candidate];
        i := i + 1;
      }
      assert items[..i] == items;
    }

    /** Keeps the candidates on trusted domains, in order, then truncates to maxUrls. */
    method FilterUrls(urls: seq<Candidate>) returns (filtered: seq<Candidate>)
      requires forall c :: c in urls ==> Parses(c)
      ensures filtered == Filtered(urls, maxUrls)
    {
      var filteredUrls: seq<Candidate> := [];
      for i := 0 to |urls|
        invariant filteredUrls == TrustedOf(urls[..i])
      {
        assert urls[..i + 1][..i] == urls[..i];
        assert urls[i] in urls;
        var domain := Netloc(urls[i].url).value;
        var isTrusted := IsTrustedDomain(domain);
        if isTrusted {
          filteredUrls := filteredUrls + [urls[i]];
        }
      }
      assert urls[..|urls|] == urls;
      filtered := Prefix(filteredUrls, maxUrls);
    }

    /**
     * Joins the stripped, non-empty texts of the page's narrative elements
     * with line breaks; None when the page could not be fetched or parsed.
     */
    method ExtractTextFromUrl(url: string, fetch: Fetcher) returns (text: Option<string>)
      ensures text == ExtractedText(fetch(url))
    {
      var page := fetch(url);
      if page.None? {
        return None;
      }
      var elements := page.value;
      var content: seq<string> := [];
      for i := 0 to |elements|
        invariant content == KeptTexts(elements[..i])
      {
        assert elements[..i + 1] == elements[..i] + [elements[i]];
        var t := Strip(elements[i]);
        assert KeptTexts(elements[..i + 1]) == KeptTexts(elements[..i]) + (if t != "" then [t] else []);
        if t != "" {
          content := content + [t];
        }
      }
      assert elements[..|elements|] == elements;
      text := Some(Join("\n", content));
    }

    /**
     * Analyses one candidate: the fixed error record when nothing was
     * extracted, otherwise the model's decoded reply merged with the
     * candidate's own record, or `{url, error}` when the call or decode fails.
     */
    method AnalyzeWebpage(urlData: Candidate, query: string, fetch: Fetcher,
                          backend: AnalysisBackend) returns (analysis: Record)
      ensures analysis == Analysis(urlData, query, ExtractedText(fetch(urlData.url)), backend)
    {
      var content := ExtractTextFromUrl(urlData.url, fetch);
      if content.None? || content.value == "" {
        return ErrorRecord(urlData.url, ExtractionFailed);
      }
      var text := Truncated(content.value);
      assert ModelInput(content) == Some(text);
      ghost var expected := Decoded(urlData, backend(urlData, query, text));
      assert Analysis(urlData, query, content, backend) == expected;
      match backend(urlData, query, text)
      case Err(message) =>
        analysis := ErrorRecord(urlData.url, message);
      case Ok(JObject(fields)) =>
        analysis := Update(fields, CandidateRecord(urlData));
      case Ok(v) =>
        analysis := ErrorRecord(urlData.url, NoUpdateMessage(v));
    }

    /**
     * One research run. `reply` is the search API's answer, `fetch` gives each
     * page's element texts, `backend` and `synth` are the two model calls and
     * `now` is the clock reading stamped on the result.
     */
    method Research(query: string, reply: SearchReply, fetch: Fetcher, backend: AnalysisBackend,
                    synth: SynthesisBackend, now: string) returns (result: ResearchResult)
      ensures result == Outcome(query, reply, maxUrls, fetch, backend, synth, now)
      ensures !result.Failed? ==> result.sourcesAnalyzed == |result.webpageAnalyses|
    {
      var searchResults := SearchUrls(reply);
      if searchResults == [] {
        return Failed(NoSearchResults);
      }
      var filteredUrls := FilterUrls(searchResults);
      if filteredUrls == [] {
        return Failed(NoReliableSources);
      }
      var analyses: seq<Record> := [];
      for i := 0 to |filteredUrls|
        invariant analyses == AnalysesOf(filteredUrls[..i], query, fetch, backend)
      {
        assert filteredUrls[..i + 1][..i] == filteredUrls[..i];
        var urlData := filteredUrls[i];
        var analysis := AnalyzeWebpage(urlData, query, fetch, backend);
        analyses := analyses + [analysis];
      }
      assert filteredUrls[..|filteredUrls|] == filteredUrls;
      match synth(query, analyses)
      case Ok(synthesis) =>
        result := Synthesized(query, now, |analyses|, analyses, synthesis);
      case Err(e) =>
        result := Unsynthesized(query, now, |analyses|, analyses, e);
    }
  }
}
