/**
 * What each stage of WebResearchTool computes, as functions of the values
 * the outside world hands it, and the properties of those functions. The
 * methods of module ResearchTool are proved to compute exactly these.
 */
module Pipeline {
  import opened Wrappers
  import opened Json
  import opened PyBuiltins
  import opened UrlParse
  import opened Sequences

  // ---------------------------------------------------------------- search

  /** One item of a Custom Search reply; a key the item lacks is None. */
  datatype SearchItem = SearchItem(link: Option<string>, title: Option<string>, snippet: Option<string>)

  /** The search call raised, or it returned a reply whose 'items' key may be missing. */
  datatype SearchReply = SearchRaised | SearchReturned(items: Option<seq<SearchItem>>)

  /** The dictionary search_urls builds for one item; `source` is the link's netloc. */
  datatype Candidate = Candidate(url: string, title: string, snippet: string, source: string)

  function CandidateRecord(c: Candidate): Record {
    map["url" := JStr(c.url), "title" := JStr(c.title), "snippet" := JStr(c.snippet),
        "source" := JStr(c.source)]
  }

  /** The record built for one item, or None where building it raises. */
  function CandidateOf(item: SearchItem): Option<Candidate> {
    if item.link.None? || item.title.None? || item.snippet.None? then None
    else match Netloc(item.link.value)
      case None => None
      case Some(host) => Some(Candidate(item.link.value, item.title.value, item.snippet.value, host))
  }

  /** One record per item, in order; None as soon as any item cannot be turned into one. */
  function Candidates(items: seq<SearchItem>): (r: Option<seq<Candidate>>)
    ensures r.Some? <==> forall i :: 0 <= i < |items| ==> CandidateOf(items[i]).Some?
    ensures r.Some? ==> |r.value| == |items|
    ensures r.Some? ==> forall i :: 0 <= i < |items| ==> r.value[i] == CandidateOf(items[i]).value
    decreases |items|
  {
    if items == [] then Some([])
    else
      var init := items[..|items| - 1];
      assert forall i :: 0 <= i < |init| ==> init[i] == items[i];
      match Candidates(init)
      case None => None
      case Some(cs) =>
        match CandidateOf(items[|items| - 1])
        case None => None
        case Some(c) => Some(cs + [c])
  }

  /**
   * What search_urls returns: any exception, including one raised for a
   * single item, turns the whole result into the empty list.
   */
  function SearchResults(reply: SearchReply): (r: seq<Candidate>)
    ensures forall c :: c in r ==> Netloc(c.url) == Some(c.source)
  {
    match reply
    case SearchRaised => []
    case SearchReturned(None) => []
    case SearchReturned(Some(items)) =>
      match Candidates(items)
      case None => []
      case Some(cs) => cs
  }

  /** A reply whose every item is complete yields one candidate per item, in order. */
  lemma SearchResultsPerItem(items: seq<SearchItem>)
    requires forall i :: 0 <= i < |items| ==> CandidateOf(items[i]).Some?
    ensures |SearchResults(SearchReturned(Some(items)))| == |items|
    ensures forall i :: 0 <= i < |items| ==>
      var c := SearchResults(SearchReturned(Some(items)))[i];
      Some(c.url) == items[i].link && Some(c.title) == items[i].title
      && Some(c.snippet) == items[i].snippet && Netloc(c.url) == Some(c.source)
  {
  }

  /** One incomplete item empties the whole result. */
  lemma SearchResultsAllOrNothing(items: seq<SearchItem>, i: int)
    requires 0 <= i < |items| && CandidateOf(items[i]).None?
    ensures SearchResults(SearchReturned(Some(items))) == []
  {
  }

  // ---------------------------------------------------------------- filter

  /** The trusted-domain list of filter_urls, in its order. */
  const TrustedDomains: seq<string> := [
    "nature.com", "science.org", "scientificamerican.com",
    "ieee.org", "acm.org", "arxiv.org", "gov", "edu",
    "github.com", "stackoverflow.com", "medium.com"
  ]

  /** `any(domain.endswith(t) for t in trusted_domains)`. */
  predicate IsTrustedDomain(domain: string) {
    exists t :: t in TrustedDomains && EndsWith(domain, t)
  }

  /** The candidate's URL can be parsed (urlparse does not raise on it). */
  predicate Parses(c: Candidate) { Netloc(c.url).Some? }

  /**
   * The candidate's freshly parsed netloc ends with a trusted entry. A URL
   * that does not parse would make filter_urls raise ValueError; it counts
   * as untrusted here, and research never meets one, because every record
   * SearchResults returns parsed (its ensures).
   */
  predicate Credible(c: Candidate) {
    match Netloc(c.url)
    case None => false
    case Some(domain) => IsTrustedDomain(domain)
  }

  /** The credible candidates, in input order. */
  function TrustedOf(urls: seq<Candidate>): seq<Candidate> {
    Keep(urls, Credible)
  }

  /** What filter_urls returns: the trusted ones, truncated to `maxUrls` afterwards. */
  function Filtered(urls: seq<Candidate>, maxUrls: int): seq<Candidate> {
    Prefix(TrustedOf(urls), maxUrls)
  }

  /**
   * filter_urls returns the first `maxUrls` credible candidates in input
   * order: untrusted candidates never appear, the output is a subsequence of
   * the input, and truncation happens after filtering.
   */
  lemma FilteredSpec(urls: seq<Candidate>, maxUrls: int)
    ensures forall c :: c in Filtered(urls, maxUrls) ==> c in urls && Credible(c)
    ensures Filtered(urls, maxUrls) == TrustedOf(urls)[..|Filtered(urls, maxUrls)|]
    ensures IsSubsequence(Filtered(urls, maxUrls), urls)
    ensures |TrustedOf(urls)| == |KeptPositions(urls, Credible)|
    ensures forall k :: 0 <= k < |urls| ==> (k in KeptPositions(urls, Credible) <==> Credible(urls[k]))
    ensures |Filtered(urls, maxUrls)| <= |TrustedOf(urls)|
    ensures maxUrls >= 0 ==> |Filtered(urls, maxUrls)| == Min(maxUrls, |TrustedOf(urls)|)
    ensures |TrustedOf(urls)| <= maxUrls ==> Filtered(urls, maxUrls) == TrustedOf(urls)
  {
    var f := Filtered(urls, maxUrls);
    KeepMembers(urls, Credible);
    KeepEmbedding(urls, Credible);
    var p := KeptPositions(urls, Credible);
    forall c | c in f ensures c in TrustedOf(urls) {
      var i :| 0 <= i < |f| && f[i] == c;
      assert TrustedOf(urls)[i] == c;
    }
    PrefixEmbeds(p, TrustedOf(urls), urls, |f|);
  }

  /** With a positive limit, filtering leaves nothing exactly when no candidate is credible. */
  lemma FilteredEmpty(urls: seq<Candidate>, maxUrls: int)
    requires maxUrls > 0
    ensures Filtered(urls, maxUrls) == [] <==> forall c :: c in urls ==> !Credible(c)
  {
    KeepMembers(urls, Credible);
    if TrustedOf(urls) != [] {
      assert TrustedOf(urls)[0] in TrustedOf(urls);
    }
  }

  /** Suffix matching over-trusts: any host that merely ends in "edu" is accepted. */
  lemma SuffixOverTrust(prefix: string)
    ensures IsTrustedDomain(prefix + "edu")
  {
    EndsWithConcat(prefix, "edu");
    assert "edu" in TrustedDomains;
  }

  /** A host outside the list, such as "randomblog.xyz", is rejected. */
  lemma UntrustedExample()
    ensures !IsTrustedDomain("randomblog.xyz")
  {
  }

  /** No trusted entry ends in a digit, so no host that ends in one is trusted. */
  lemma EndsInDigitUntrusted(domain: string)
    requires domain != [] && '0' <= domain[|domain| - 1] <= '9'
    ensures !IsTrustedDomain(domain)
  {
  }

  /**
   * The netloc keeps an explicit port, so a trusted site addressed with a
   * port ("https://www.nature.com:443/...") is not trusted.
   */
  lemma PortDefeatsTrust(scheme: string, host: string, port: string, tail: string)
    requires scheme != [] && IsAsciiLetter(scheme[0])
    requires forall c :: c in scheme ==> IsSchemeChar(c)
    requires forall c :: c in host ==> !IsNetlocDelimiter(c) && !IsUnsafeUrlChar(c) && c != '[' && c != ']'
    requires port != [] && forall c :: c in port ==> '0' <= c <= '9'
    requires tail == [] || IsNetlocDelimiter(tail[0])
    requires forall c :: c in tail ==> !IsUnsafeUrlChar(c)
    ensures Netloc(scheme + "://" + (host + ":" + port) + tail) == Some(host + ":" + port)
    ensures !IsTrustedDomain(host + ":" + port)
  {
    var netloc := host + ":" + port;
    forall c | c in netloc ensures !IsNetlocDelimiter(c) && !IsUnsafeUrlChar(c) && c != '[' && c != ']' {
      assert c in host || c == ':' || c in port;
    }
    NetlocOfComposed(scheme, netloc, tail);
    assert netloc[|netloc| - 1] == port[|port| - 1] && port[|port| - 1] in port;
    EndsInDigitUntrusted(netloc);
  }

  // --------------------------------------------------------------- extract

  /** The stripped, non-empty element texts, in document order. */
  function KeptTexts(elements: seq<string>): seq<string>
    decreases |elements|
  {
    if elements == [] then []
    else
      var t := Strip(elements[|elements| - 1]);
      KeptTexts(elements[..|elements| - 1]) + (if t != [] then [t] else [])
  }

  /** Each kept text is non-empty and already stripped. */
  lemma {:induction false} KeptTextsStripped(elements: seq<string>)
    ensures forall i :: 0 <= i < |KeptTexts(elements)| ==>
      KeptTexts(elements)[i] != [] && Strip(KeptTexts(elements)[i]) == KeptTexts(elements)[i]
    decreases |elements|
  {
    if elements != [] {
      var init, e := elements[..|elements| - 1], elements[|elements| - 1];
      KeptTextsStripped(init);
      StripIdempotent(e);
      var t := Strip(e);
      assert KeptTexts(elements) == KeptTexts(init) + (if t != [] then [t] else []);
    }
  }

  /** Every element text stripped, one per element, in document order. */
  function StrippedTexts(elements: seq<string>): (r: seq<string>)
    ensures |r| == |elements| && forall i :: 0 <= i < |r| ==> r[i] == Strip(elements[i])
  {
    seq(|elements|, i requires 0 <= i < |elements| => Strip(elements[i]))
  }

  /** The test extract_text_from_url applies to a stripped text. */
  predicate NonBlank(t: string) { t != [] }

  /**
   * KeptTexts is exactly the non-empty stripped texts, all of them and in
   * document order: text i of the result is the stripped text of element
   * KeptPositions(...)[i], and the positions kept are exactly those whose
   * stripped text is non-empty.
   */
  lemma {:induction false} KeptTextsIsKeep(elements: seq<string>)
    ensures KeptTexts(elements) == Keep(StrippedTexts(elements), NonBlank)
    ensures Embeds(KeptPositions(StrippedTexts(elements), NonBlank), KeptTexts(elements), StrippedTexts(elements))
    ensures forall k :: 0 <= k < |elements| ==>
      (k in KeptPositions(StrippedTexts(elements), NonBlank) <==> Strip(elements[k]) != [])
    ensures forall t :: t in KeptTexts(elements) <==> t in StrippedTexts(elements) && t != []
    decreases |elements|
  {
    if elements != [] {
      var init := elements[..|elements| - 1];
      KeptTextsIsKeep(init);
      assert StrippedTexts(elements)[..|elements| - 1] == StrippedTexts(init);
    }
    KeepEmbedding(StrippedTexts(elements), NonBlank);
    KeepMembers(StrippedTexts(elements), NonBlank);
  }

  /**
   * What extract_text_from_url returns, given the texts of the narrative
   * elements the fetched page holds after noise removal (None: the request,
   * the status check or the parse failed).
   */
  function ExtractedText(page: Option<seq<string>>): Option<string> {
    match page
    case None => None
    case Some(elements) => Some(Join("\n", KeptTexts(elements)))
  }

  /** KeptTexts drops exactly the whitespace-only elements. */
  lemma {:induction false} KeptTextsEmpty(elements: seq<string>)
    ensures KeptTexts(elements) == [] <==>
      forall i, k :: 0 <= i < |elements| && 0 <= k < |elements[i]| ==> IsSpace(elements[i][k])
    decreases |elements|
  {
    if elements != [] {
      var init := elements[..|elements| - 1];
      KeptTextsEmpty(init);
      StripSpec(elements[|elements| - 1]);
      assert forall i :: 0 <= i < |init| ==> elements[i] == init[i];
    }
  }

  /** Elements without a line break inside never gain one: each kept text is free of them. */
  lemma {:induction false} KeptTextsLineFree(elements: seq<string>)
    requires forall i :: 0 <= i < |elements| ==> '\n' !in elements[i]
    ensures forall i :: 0 <= i < |KeptTexts(elements)| ==> '\n' !in KeptTexts(elements)[i]
    decreases |elements|
  {
    if elements != [] {
      KeptTextsLineFree(elements[..|elements| - 1]);
      StripSpec(elements[|elements| - 1]);
    }
  }

  /** An extracted page is empty exactly when every element text is whitespace. */
  lemma ExtractedTextBlank(elements: seq<string>)
    ensures ExtractedText(Some(elements)) == Some("") <==>
      forall i, k :: 0 <= i < |elements| && 0 <= k < |elements[i]| ==> IsSpace(elements[i][k])
  {
    KeptTextsEmpty(elements);
    KeptTextsStripped(elements);
    JoinEmpty("\n", KeptTexts(elements));
  }

  /** Splitting the extracted text on line breaks gives back the kept element texts. */
  lemma ExtractedTextLines(elements: seq<string>)
    requires forall i :: 0 <= i < |elements| ==> '\n' !in elements[i]
    requires KeptTexts(elements) != []
    ensures Split(ExtractedText(Some(elements)).value, '\n') == KeptTexts(elements)
  {
    KeptTextsLineFree(elements);
    SplitJoin('\n', KeptTexts(elements));
  }

  // --------------------------------------------------------------- analyze

  const MaxContentLength := 12000

  const ExtractionFailed := "Failed to extract content"

  /** Content over the limit keeps its first MaxContentLength characters and gains "...". */
  function Truncated(content: string): string {
    if |content| > MaxContentLength then content[..MaxContentLength] + "..." else content
  }

  lemma TruncatedSpec(content: string)
    ensures |content| <= MaxContentLength ==> Truncated(content) == content
    ensures |content| > MaxContentLength ==>
      && |Truncated(content)| == MaxContentLength + 3
      && Truncated(content)[..MaxContentLength] == content[..MaxContentLength]
      && Truncated(content)[MaxContentLength..] == "..."
    ensures |Truncated(content)| <= MaxContentLength + 3
  {
  }

  /** Truncating a second time changes nothing. */
  lemma TruncatedIdempotent(content: string)
    ensures Truncated(Truncated(content)) == Truncated(content)
  {
    if |content| > MaxContentLength {
      var t := Truncated(content);
      assert t[..MaxContentLength] == content[..MaxContentLength];
    }
  }

  /** `{"url": url, "error": message}`. */
  function ErrorRecord(url: string, message: string): Record {
    map["url" := JStr(url), "error" := JStr(message)]
  }

  /** The AttributeError message `analysis.update(...)` raises when the reply is not a dict. */
  function NoUpdateMessage(v: Value): string {
    "'" + TypeName(v) + "' object has no attribute 'update'"
  }

  /**
   * The model call for one page, from the candidate, the query and the
   * (truncated) content the prompt is built from: the decoded reply, or the
   * message of the exception the call or the decoding raised.
   */
  type AnalysisBackend = (Candidate, string, string) -> Result<Value, string>

  /** The content the model is asked about, or None when it is not called at all. */
  function ModelInput(text: Option<string>): Option<string> {
    match text
    case None => None
    case Some(t) => if t == "" then None else Some(Truncated(t))
  }

  /** The record built from the model's reply. */
  function Decoded(c: Candidate, reply: Result<Value, string>): Record {
    match reply
    case Err(message) => ErrorRecord(c.url, message)
    case Ok(JObject(fields)) => Update(fields, CandidateRecord(c))
    case Ok(v) => ErrorRecord(c.url, NoUpdateMessage(v))
  }

  /** What analyze_webpage returns for a candidate whose extracted text is `text`. */
  function Analysis(c: Candidate, query: string, text: Option<string>, backend: AnalysisBackend): Record {
    match ModelInput(text)
    case None => ErrorRecord(c.url, ExtractionFailed)
    case Some(content) => Decoded(c, backend(c, query, content))
  }

  /**
   * Without text the result is the fixed error record and does not depend
   * on the model at all: the model is not consulted.
   */
  lemma AnalysisShortCircuit(c: Candidate, query: string, text: Option<string>,
                             backend: AnalysisBackend, other: AnalysisBackend)
    requires text == None || text == Some("")
    ensures Analysis(c, query, text, backend) == ErrorRecord(c.url, ExtractionFailed)
    ensures Analysis(c, query, text, backend) == Analysis(c, query, text, other)
  {
  }

  /** With text the model sees it truncated, and only then. */
  lemma ModelInputSpec(text: Option<string>)
    ensures ModelInput(text).None? <==> text == None || text == Some("")
    ensures ModelInput(text).Some? ==>
      ModelInput(text).value == Truncated(text.value) && |ModelInput(text).value| <= MaxContentLength + 3
  {
  }

  /**
   * On a decoded dict the result holds every key of the reply and of the
   * candidate's record, and the candidate's values win on shared keys; a
   * failing call or decode gives exactly `{url, error}`.
   */
  lemma AnalysisOfReply(c: Candidate, query: string, t: string, backend: AnalysisBackend)
    requires t != ""
    ensures var r := Analysis(c, query, Some(t), backend);
      match backend(c, query, Truncated(t))
      case Err(message) => r == ErrorRecord(c.url, message)
      case Ok(JObject(fields)) =>
        && r.Keys == fields.Keys + {"url", "title", "snippet", "source"}
        && (forall k :: k in CandidateRecord(c) ==> r[k] == CandidateRecord(c)[k])
        && (forall k :: k in fields && k !in CandidateRecord(c) ==> r[k] == fields[k])
      case Ok(v) => r == ErrorRecord(c.url, NoUpdateMessage(v))
  {
  }

  /** Every analysis record, success or failure, carries the candidate's URL. */
  lemma AnalysisCarriesUrl(c: Candidate, query: string, text: Option<string>, backend: AnalysisBackend)
    ensures "url" in Analysis(c, query, text, backend)
    ensures Analysis(c, query, text, backend)["url"] == JStr(c.url)
  {
  }

  /**
   * The reply's keys are not checked: a dict without summary, key findings,
   * credibility or date is accepted as a success with no error field.
   */
  lemma UncheckedReplyKeys(c: Candidate, query: string, t: string, backend: AnalysisBackend)
    requires t != ""
    requires backend(c, query, Truncated(t)) == Ok(JObject(map[]))
    ensures Analysis(c, query, Some(t), backend) == CandidateRecord(c)
    ensures "error" !in Analysis(c, query, Some(t), backend)
    ensures "summary" !in Analysis(c, query, Some(t), backend)
  {
  }

  // -------------------------------------------------------------- research

  /** The page contents the fetch yields for a URL (see ExtractedText). */
  type Fetcher = string -> Option<seq<string>>

  /** The synthesis call: the decoded reply to the query and the analyses, or the exception message. */
  type SynthesisBackend = (string, seq<Record>) -> Result<Value, string>

  /** One analysis per candidate, in candidate order. */
  function AnalysesOf(cs: seq<Candidate>, query: string, fetch: Fetcher, backend: AnalysisBackend): (r: seq<Record>)
    ensures |r| == |cs|
    ensures forall i :: 0 <= i < |cs| ==> r[i] == Analysis(cs[i], query, ExtractedText(fetch(cs[i].url)), backend)
    decreases |cs|
  {
    if cs == [] then []
    else
      var last := cs[|cs| - 1];
      AnalysesOf(cs[..|cs| - 1], query, fetch, backend) + [Analysis(last, query, ExtractedText(fetch(last.url)), backend)]
  }

  const NoSearchResults := "No search results found"

  const NoReliableSources := "No reliable sources found"

  /** The dictionary research returns, by shape. */
  datatype ResearchResult =
    | Failed(error: string)
    | Synthesized(query: string, timestamp: string, sourcesAnalyzed: int,
                  webpageAnalyses: seq<Record>, synthesis: Value)
    | Unsynthesized(query: string, timestamp: string, sourcesAnalyzed: int,
                    webpageAnalyses: seq<Record>, error: string)

  function Objects(rs: seq<Record>): (r: seq<Value>)
    ensures |r| == |rs| && forall i :: 0 <= i < |rs| ==> r[i] == JObject(rs[i])
  {
    seq(|rs|, i requires 0 <= i < |rs| => JObject(rs[i]))
  }

  /** The result as the dictionary the caller receives. */
  function ResultRecord(r: ResearchResult): Record {
    match r
    case Failed(e) => map["error" := JStr(e)]
    case Synthesized(q, ts, n, analyses, s) =>
      map["query" := JStr(q), "timestamp" := JStr(ts), "sources_analyzed" := JInt(n),
          "webpage_analyses" := JArray(Objects(analyses)), "synthesis" := s]
    case Unsynthesized(q, ts, n, analyses, e) =>
      map["query" := JStr(q), "timestamp" := JStr(ts), "sources_analyzed" := JInt(n),
          "webpage_analyses" := JArray(Objects(analyses)), "error" := JStr(e)]
  }

  /**
   * What research returns for the search reply, the pages, the two model
   * calls and the clock reading `now`.
   */
  function Outcome(query: string, reply: SearchReply, maxUrls: int, fetch: Fetcher,
                   backend: AnalysisBackend, synth: SynthesisBackend, now: string): ResearchResult
  {
    var found := SearchResults(reply);
    if found == [] then Failed(NoSearchResults)
    else
      var chosen := Filtered(found, maxUrls);
      if chosen == [] then Failed(NoReliableSources)
      else
        var analyses := AnalysesOf(chosen, query, fetch, backend);
        match synth(query, analyses)
        case Ok(s) => Synthesized(query, now, |analyses|, analyses, s)
        case Err(e) => Unsynthesized(query, now, |analyses|, analyses, e)
  }

  /** The two early exits give exactly `{"error": ...}` and analyse nothing. */
  lemma OutcomeEarlyExits(query: string, reply: SearchReply, maxUrls: int, fetch: Fetcher,
                          backend: AnalysisBackend, synth: SynthesisBackend, now: string)
    ensures var r := Outcome(query, reply, maxUrls, fetch, backend, synth, now);
      && (SearchResults(reply) == [] ==> ResultRecord(r) == map["error" := JStr(NoSearchResults)])
      && (SearchResults(reply) != [] && Filtered(SearchResults(reply), maxUrls) == [] ==>
            ResultRecord(r) == map["error" := JStr(NoReliableSources)])
      && (r.Failed? <==> Filtered(SearchResults(reply), maxUrls) == [])
  {
    if SearchResults(reply) == [] {
      assert Filtered(SearchResults(reply), maxUrls) == [];
    }
  }

  /** A search whose results are all untrusted ends with "No reliable sources found". */
  lemma OutcomeNoTrusted(query: string, reply: SearchReply, maxUrls: int, fetch: Fetcher,
                         backend: AnalysisBackend, synth: SynthesisBackend, now: string)
    requires SearchResults(reply) != []
    requires forall c :: c in SearchResults(reply) ==> !Credible(c)
    ensures Outcome(query, reply, maxUrls, fetch, backend, synth, now) == Failed(NoReliableSources)
  {
    FilteredEmpty(SearchResults(reply), if maxUrls > 0 then maxUrls else 1);
    FilteredSpec(SearchResults(reply), maxUrls);
  }

  /**
   * A run that gets past filtering analyses every filtered candidate, once
   * and in order, whatever happens to synthesis; sources_analyzed counts them
   * and never exceeds the limit.
   */
  lemma OutcomeAnalyses(query: string, reply: SearchReply, maxUrls: int, fetch: Fetcher,
                        backend: AnalysisBackend, synth: SynthesisBackend, now: string)
    ensures var r := Outcome(query, reply, maxUrls, fetch, backend, synth, now);
      var chosen := Filtered(SearchResults(reply), maxUrls);
      !r.Failed? ==>
        && r.query == query && r.timestamp == now
        && r.sourcesAnalyzed == |r.webpageAnalyses| == |chosen| >= 1
        && (maxUrls >= 0 ==> r.sourcesAnalyzed <= maxUrls)
        && (forall c :: c in chosen ==> c in SearchResults(reply) && Credible(c))
        && forall i :: 0 <= i < |chosen| ==>
             r.webpageAnalyses[i] == Analysis(chosen[i], query, ExtractedText(fetch(chosen[i].url)), backend)
  {
    FilteredSpec(SearchResults(reply), maxUrls);
  }

  /**
   * A failed synthesis still returns the query, the count and every
   * analysis, with the error in place of the synthesis.
   */
  lemma OutcomeSynthesisFailure(query: string, reply: SearchReply, maxUrls: int, fetch: Fetcher,
                                backend: AnalysisBackend, synth: SynthesisBackend, now: string)
    ensures var chosen := Filtered(SearchResults(reply), maxUrls);
      var analyses := AnalysesOf(chosen, query, fetch, backend);
      var r := Outcome(query, reply, maxUrls, fetch, backend, synth, now);
      var rec := ResultRecord(r);
      chosen != [] && synth(query, analyses).Err? ==>
        && r == Unsynthesized(query, now, |analyses|, analyses, synth(query, analyses).error)
        && rec.Keys == {"query", "timestamp", "sources_analyzed", "webpage_analyses", "error"}
        && rec["sources_analyzed"] == JInt(|analyses|)
        && rec["webpage_analyses"] == JArray(Objects(analyses))
  {
    var found := SearchResults(reply);
    var chosen := Filtered(found, maxUrls);
    var analyses := AnalysesOf(chosen, query, fetch, backend);
    if chosen != [] && synth(query, analyses).Err? {
      assert found != [];
      var r := Outcome(query, reply, maxUrls, fetch, backend, synth, now);
      assert r == Unsynthesized(query, now, |analyses|, analyses, synth(query, analyses).error);
      UnsynthesizedRecord(query, now, analyses, synth(query, analyses).error);
    }
  }

  /** The partial result keeps the count and every analysis next to the error. */
  lemma UnsynthesizedRecord(query: string, now: string, analyses: seq<Record>, e: string)
    ensures var rec := ResultRecord(Unsynthesized(query, now, |analyses|, analyses, e));
      && rec.Keys == {"query", "timestamp", "sources_analyzed", "webpage_analyses", "error"}
      && rec["sources_analyzed"] == JInt(|analyses|)
      && rec["webpage_analyses"] == JArray(Objects(analyses))
  {
  }

  /** The returned dictionary has "synthesis" exactly on success and "error" otherwise. */
  lemma ResultRecordShape(r: ResearchResult)
    ensures "synthesis" in ResultRecord(r) <==> r.Synthesized?
    ensures "error" in ResultRecord(r) <==> !r.Synthesized?
    ensures r.Failed? ==> ResultRecord(r).Keys == {"error"}
    ensures !r.Failed? ==> "sources_analyzed" in ResultRecord(r) && "webpage_analyses" in ResultRecord(r)
  {
  }
}
