# WebResearchTool research pipeline, in Dafny

This project models the research pipeline of `WebResearchTool`
(`WebScanner/research_tool.py`). The pipeline runs one search query, keeps the
results on trusted domains, extracts each kept page's narrative text, asks a
language model to analyse each page, and asks it again to synthesise the
analyses into one answer.

The search API, the HTTP fetch with HTML parsing, the two model calls and the
clock are outside the model. Each one is a parameter:

- `SearchReply` is what the Custom Search call gave back. It either raised,
  or it returned a reply whose `items` key may be missing. Each item's
  `link`, `title` and `snippet` key may be missing.
- `Fetcher` maps a URL to the texts of the page's `p`/`h1`/`h2`/`h3`/`article`
  elements, in document order, after `script`, `style`, `nav`, `header`,
  `footer` and `ads` are removed. It gives `None` when the request, the status
  check or the parse failed.
- `AnalysisBackend` maps (candidate, query, content) to the decoded JSON reply,
  or to the message of the exception the call or `json.loads` raised.
  `SynthesisBackend` does the same for (query, analyses).
- `now` is the timestamp string `datetime.now().isoformat()` would give.

Modules:

- `Wrappers`: Option and Result.
- `Json`: decoded JSON values, dictionaries and `dict.update`.
- `PyBuiltins`: `str.strip`, `str.endswith`, `str.find`, `sep.join`,
  `str.split` and the slice `s[:n]`, with Python's negative-index meaning.
- `UrlParse`: the `netloc` part of `urlparse`, including the `ValueError` it
  raises on an unmatched `[` or `]`.
- `Sequences`: keeping the elements that pass a test, and subsequences.
- `Pipeline`: the specification of each stage as functions, and the lemmas
  about them.
- `ResearchTool`: the class `WebResearchTool`. Its fields are set once by the
  constructor. Its methods use the source's loops, and each is proved to
  compute its `Pipeline` function.

Behaviour of the code that the model keeps as written:

- The model's reply is not checked for the four keys `summary`,
  `key_findings`, `credibility` and `date`. Any JSON object counts as a
  success (`UncheckedReplyKeys`). A reply that is not an object fails in
  `update` with an `AttributeError`, which becomes `{url, error}`.
- The metadata merged into a successful analysis is the full search record:
  `url`, `title`, `snippet` and `source`.
- The trusted-domain test applies `endswith` to the raw `netloc`. The
  `netloc` is not lower-cased, and it keeps any port or user info, so
  `www.nature.com:443` is not trusted (`PortDefeatsTrust`).
- `max_urls` is a Python `int`, and `filtered_urls[:max_urls]` follows
  Python's slice rules. "At most `max_urls` sources" therefore holds only when
  `max_urls >= 0`.
- The error strings are "Failed to extract content",
  "No search results found" and "No reliable sources found".
- The synthesis is stored as whatever JSON value the reply decoded to. It is
  not checked for five keys.

## Model

| member | source | states |
|---|---|---|
| `ResearchTool.WebResearchTool.constructor` | WebScanner/research_tool.py:13-27 | The keys and `max_urls` (default 5) are stored as given. |
| `ResearchTool.WebResearchTool.SearchUrls` | WebScanner/research_tool.py:37-64 | The loop builds exactly `SearchResults(reply)`. Every record's `source` is the netloc of its `url`. |
| `Pipeline.Candidates` | WebScanner/research_tool.py:51-58 | There is one record per item, in item order, exactly when every item can be turned into one. |
| `Pipeline.SearchResults` | WebScanner/research_tool.py:47-64 | Every returned record's `source` equals `urlparse(url).netloc`. A raise, or a missing `items` key, gives no records. |
| `Pipeline.SearchResultsPerItem` | WebScanner/research_tool.py:52-58 | When every item is complete and parses, record i carries item i's link, title and snippet, with the link's host as `source`. |
| `Pipeline.SearchResultsAllOrNothing` | WebScanner/research_tool.py:62-64 | A single item that is incomplete or does not parse empties the whole result, because the exception discards the partial list. |
| `ResearchTool.WebResearchTool.FilterUrls` | WebScanner/research_tool.py:66-95 | The loop keeps each candidate whose netloc ends with a trusted entry and truncates afterwards, giving exactly `Filtered(urls, max_urls)`. The URLs must parse, as `urlparse` would raise otherwise. |
| `Pipeline.FilteredSpec` | WebScanner/research_tool.py:83-95 | No untrusted record is returned. The output is a subsequence of the input, and it is a prefix of the in-order trusted candidates. Its length is `min(max_urls, number of trusted inputs)` when `max_urls >= 0`. When no more than `max_urls` candidates are trusted, all of them are kept. |
| `Pipeline.FilteredEmpty` | WebScanner/research_tool.py:92-95 | With a positive limit, the filter returns nothing exactly when no candidate is trusted. |
| `Sequences.KeepEmbedding` | WebScanner/research_tool.py:84-93 | The accumulated list holds the elements at exactly the passing positions, in increasing position order. |
| `Sequences.KeepMembers` | WebScanner/research_tool.py:84-93 | An element is in the accumulated list exactly when it is in the input and passes the test. |
| `Sequences.PrefixEmbeds` | WebScanner/research_tool.py:95 | A prefix of a subsequence is still a subsequence. |
| `PyBuiltins.Prefix` | WebScanner/research_tool.py:95 | `s[:n]` is a prefix of `s`. Its length is `min(n, len(s))` for `n >= 0` and `max(0, len(s) + n)` for negative `n`. |
| `Pipeline.SuffixOverTrust` | WebScanner/research_tool.py:77-90 | Suffix matching accepts any host that merely ends in "edu", such as "notedu". |
| `Pipeline.UntrustedExample` | WebScanner/research_tool.py:77-90 | "randomblog.xyz" matches no trusted entry. |
| `Pipeline.EndsInDigitUntrusted` | WebScanner/research_tool.py:77-90 | A host ending in a digit is never trusted. |
| `Pipeline.PortDefeatsTrust` | WebScanner/research_tool.py:85-90 | The netloc of `scheme://host:port/...` is `host:port`, and that netloc is never trusted. |
| `UrlParse.NetlocOfComposed` | WebScanner/research_tool.py:57 | Parsing `scheme://host` plus a path, query or fragment gives back exactly `host`. |
| `UrlParse.NetlocHasNoDelimiter` | WebScanner/research_tool.py:85 | A netloc never contains '/', '?' or '#'. |
| `ResearchTool.WebResearchTool.ExtractTextFromUrl` | WebScanner/research_tool.py:97-131 | The loop collects exactly the kept texts, and the result is them joined with '\n'. A failed fetch gives None. |
| `Pipeline.KeptTextsIsKeep` | WebScanner/research_tool.py:121-125 | The collected texts are exactly the stripped element texts that are non-empty, all of them, in document order. Text i is the stripped text of the i-th such element, and an element contributes exactly when its stripped text is non-empty. |
| `Pipeline.KeptTextsStripped` | WebScanner/research_tool.py:121-125 | Every collected text is non-empty and already stripped. |
| `Pipeline.KeptTextsEmpty` | WebScanner/research_tool.py:121-125 | Nothing is collected exactly when every element text is whitespace. |
| `Pipeline.KeptTextsLineFree` | WebScanner/research_tool.py:121-125 | Stripping introduces no line break. |
| `Pipeline.ExtractedTextBlank` | WebScanner/research_tool.py:121-127 | A fetched page yields "" exactly when all its element texts are whitespace. |
| `Pipeline.ExtractedTextLines` | WebScanner/research_tool.py:127 | When no element text contains a line break, splitting the result on '\n' gives back the collected texts. |
| `PyBuiltins.StripSpec` | WebScanner/research_tool.py:123 | `strip()` is the slice `s[i:j]` of its input where everything before `i` and from `j` on is whitespace. It starts and ends with a non-whitespace character, and it is empty exactly for an all-whitespace text. |
| `PyBuiltins.StripSlice` | WebScanner/research_tool.py:123 | `strip()` removes only leading and trailing whitespace: the result is a contiguous slice of the input with whitespace alone cut off on either side. |
| `PyBuiltins.StripIdempotent` | WebScanner/research_tool.py:123 | Stripping twice changes nothing. |
| `PyBuiltins.JoinEmpty` | WebScanner/research_tool.py:127 | Joining non-empty parts gives "" only when there are no parts. |
| `PyBuiltins.SplitJoin` | WebScanner/research_tool.py:127 | `split` undoes `join` when no part contains the separator. |
| `ResearchTool.WebResearchTool.AnalyzeWebpage` | WebScanner/research_tool.py:133-187 | The method computes exactly `Analysis`: short-circuit, truncation, model call, merge or error record. |
| `Pipeline.ModelInputSpec` | WebScanner/research_tool.py:144-151 | The model is consulted exactly when the extracted text is present and non-empty. It then sees the truncated text, at most 12003 characters long. |
| `Pipeline.AnalysisShortCircuit` | WebScanner/research_tool.py:144-146 | Missing or empty content gives exactly `{url, "Failed to extract content"}`, and the result is the same whatever the model would say. |
| `Pipeline.TruncatedSpec` | WebScanner/research_tool.py:148-151 | Text of up to 12000 characters is unchanged. Longer text becomes its first 12000 characters followed by "...", 12003 characters in all. |
| `Pipeline.TruncatedIdempotent` | WebScanner/research_tool.py:149-151 | Truncating twice is the same as truncating once. |
| `Pipeline.AnalysisOfReply` | WebScanner/research_tool.py:181-187 | A decoded dict is merged with the candidate's record, whose values win on shared keys, and every key of both is present. A failing call or decode gives exactly `{url, message}`. A non-dict reply gives `{url, AttributeError message}`. |
| `Json.Update` | WebScanner/research_tool.py:182 | `dict.update`: the keys of both dicts are present, the argument's values win, and the other keys keep their values. |
| `Pipeline.AnalysisCarriesUrl` | WebScanner/research_tool.py:144-187 | Every analysis record, whether success or error, maps "url" to the candidate's URL. |
| `Pipeline.UncheckedReplyKeys` | WebScanner/research_tool.py:181-183 | A reply without summary, findings, credibility or date is accepted as a success with no error key. |
| `Pipeline.AnalysesOf` | WebScanner/research_tool.py:213-218 | There is exactly one analysis per filtered candidate, in candidate order. |
| `ResearchTool.WebResearchTool.Research` | WebScanner/research_tool.py:189-265 | The method computes exactly `Outcome`, and `sources_analyzed` equals the number of analyses whenever the run gets past filtering. |
| `Pipeline.OutcomeEarlyExits` | WebScanner/research_tool.py:201-210 | No search results gives exactly `{"error": "No search results found"}`. Results with no trusted ones give exactly `{"error": "No reliable sources found"}`. The run fails early exactly when filtering leaves nothing. |
| `Pipeline.OutcomeNoTrusted` | WebScanner/research_tool.py:207-210 | A search whose results are all untrusted ends with "No reliable sources found". |
| `Pipeline.OutcomeAnalyses` | WebScanner/research_tool.py:213-253 | After filtering, record i is the analysis of the i-th filtered candidate. `sources_analyzed` equals the number of analyses and the number of filtered candidates, is at least 1, and is at most `max_urls` for a non-negative limit. |
| `Pipeline.OutcomeSynthesisFailure` | WebScanner/research_tool.py:257-265 | A failed synthesis still returns query, timestamp, `sources_analyzed` and every analysis, with `error` in place of `synthesis`. |
| `Pipeline.UnsynthesizedRecord` | WebScanner/research_tool.py:259-265 | The partial result's dict has exactly the keys query, timestamp, sources_analyzed, webpage_analyses and error, with the count and every analysis in place. |
| `Pipeline.ResultRecordShape` | WebScanner/research_tool.py:247-265 | The returned dict has "synthesis" exactly on success and "error" otherwise. An early exit holds "error" alone. |
| `UrlParse.Netloc` | WebScanner/research_tool.py:57 | Defines `urlparse(url).netloc` as Python 3.12's `urlsplit` computes it: strip leading C0 controls and spaces, remove tab/CR/LF, split off a valid scheme, then take the text after `//` up to the first '/', '?' or '#'. An unmatched bracket gives None, the `ValueError`. Its properties are `NetlocOfComposed` and `NetlocHasNoDelimiter`. |
| `Pipeline.IsTrustedDomain` | WebScanner/research_tool.py:77-90 | Defines the `any(domain.endswith(t) ...)` test over the 11 trusted entries, in their order in the list. |
| `Pipeline.Credible` | WebScanner/research_tool.py:85-90 | Defines the test applied to a record: the netloc of its `url`, parsed afresh, passes `IsTrustedDomain`. |
| `Pipeline.Filtered` | WebScanner/research_tool.py:83-95 | Defines the value `filter_urls` returns: the credible records in input order, truncated by `[:max_urls]`. Its properties are `FilteredSpec` and `FilteredEmpty`. |
| `PyBuiltins.Strip` | WebScanner/research_tool.py:123 | Defines `str.strip()` with no argument, over the characters `str.isspace` accepts. Its properties are `StripSpec`, `StripSlice` and `StripIdempotent`. |
| `PyBuiltins.Join` | WebScanner/research_tool.py:127 | Defines `sep.join(parts)`. Its properties are `JoinEmpty` and `SplitJoin`. |
| `PyBuiltins.Split` | WebScanner/research_tool.py:127 | Defines `s.split(sep)` for a one-character separator. It is the partner that `SplitJoin` inverts `Join` with. |
| `Pipeline.KeptTexts` | WebScanner/research_tool.py:121-125 | Defines the `content` list: the stripped, non-empty element texts, in document order. Its properties are `KeptTextsIsKeep`, `KeptTextsStripped`, `KeptTextsEmpty` and `KeptTextsLineFree`. |
| `Pipeline.ExtractedText` | WebScanner/research_tool.py:107-131 | Defines the value `extract_text_from_url` returns: None when the fetch failed, else the kept texts joined with '\n'. |
| `Pipeline.Truncated` | WebScanner/research_tool.py:148-151 | Defines the truncation to 12000 characters plus "...". Its properties are `TruncatedSpec` and `TruncatedIdempotent`. |
| `Pipeline.ModelInput` | WebScanner/research_tool.py:144-151 | Defines the content the model is shown: None when the text is missing or empty, else the truncated text. Its property is `ModelInputSpec`. |
| `Pipeline.Decoded` | WebScanner/research_tool.py:181-187 | Defines the record built from the model's outcome: a dict reply updated with the search record, the AttributeError record for any other decoded value, and `{url, error}` for an exception. |
| `Pipeline.ErrorRecord` | WebScanner/research_tool.py:146-187 | Defines the two-key record `{"url": url, "error": message}` that both the short-circuit (line 146) and the exception handler (line 187) return. |
| `Pipeline.NoUpdateMessage` | WebScanner/research_tool.py:182 | Defines the text of the `AttributeError` that calling `update` on a non-dict value raises. |
| `Json.TypeName` | WebScanner/research_tool.py:182 | Defines the Python type name of a decoded JSON value, as that error message names it. |
| `Pipeline.Analysis` | WebScanner/research_tool.py:144-187 | Defines the value `analyze_webpage` returns: the short-circuit record, or the decoded outcome of the model call on the truncated text. Its properties are `AnalysisShortCircuit`, `AnalysisOfReply`, `AnalysisCarriesUrl` and `UncheckedReplyKeys`. |
| `Pipeline.Outcome` | WebScanner/research_tool.py:199-265 | Defines the value `research` computes: the two early exits, the analyses of the filtered records, then a synthesis or a partial result with the synthesis error. Its properties are `OutcomeEarlyExits`, `OutcomeNoTrusted`, `OutcomeAnalyses` and `OutcomeSynthesisFailure`. |
| `Pipeline.ResultRecord` | WebScanner/research_tool.py:203-265 | Defines the dict `research` returns for each kind of outcome. Its property is `ResultRecordShape`. |

## Left out

- The Google Custom Search request (`build`, `cse().list(...)` with the key,
  the engine id and `num=max_urls`) is not modelled. Its reply is an input, so
  the model does not assume the reply holds at most `max_urls` items.
- `requests.get` with its user agent and timeout, `raise_for_status`, and
  BeautifulSoup's parsing, element removal, `find_all` and `get_text` are not
  modelled. The element texts they produce are an input, `Fetcher`.
- The fetch is a function of the URL alone. A URL that appears twice in one
  run therefore gets the same page both times.
- The Anthropic `messages.create` calls, the prompt text, `json.dumps` and
  `json.loads` are not modelled. Each call's outcome is an input: a decoded
  value, or an exception message.
- The `time.sleep(1)` pause, `datetime.now()` (an input string instead) and
  logging are not modelled. They are timing, clock and I/O concerns.
- `main()` is not modelled. It does configuration-file, console and JSON-file
  I/O.
- `ell-agentic-search.py` and `ell-editorial.py` are not part of this model:
  they are LLM-agent and console glue around other services.
- UrlParse.Netloc follows the `urlsplit` of Python 3.12, including its
  stripping of leading C0 controls and spaces (the CVE-2023-24329 fix).
  Releases without that fix give netloc `""` for a URL such as
  `" http://x.org"`, and the model does not cover them.
- UrlParse.Netloc does not model the NFKC check that newer Python versions
  apply to non-ASCII netlocs, or their validation of a bracketed IPv6 host.
  Only the unmatched-bracket `ValueError` is modelled.
- `Json.Record` is an unordered map, so the insertion order of Python dicts
  is lost. That order shapes the `json.dumps` text in the synthesis prompt
  and the layout of the file `main()` writes. Neither is modelled.
- `AnalysisBackend` and `SynthesisBackend` are functions, so equal inputs
  always get equal replies. A real model call may answer the same prompt
  differently on two calls.
- JSON numbers are integers or reals. NaN and Infinity are not modelled.
- Python strings are sequences of code points. Dafny `char` is a Unicode
  scalar value, so lone surrogates are not modelled.
