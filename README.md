# Verified model of the article-ingestion core of a RAG compliance assistant

The application answers whether a company meets a demand. It retrieves
passages from articles scraped from a content site, reached by replaying
session cookies, and asks a language model to judge the demand against
them. Before any retrieval or language model is
involved, it does two deterministic things, and this project models both in
Dafny and proves what they promise:

- **Session cookies** (`cookie_utils.py`). The raw cookie header
  `name=value; name=value` and the target domain are read from the
  environment. They are turned into the ordered list of
  `{name, value, domain, path}` records the browser context is given.
  - Each `;`-separated segment is stripped.
  - A segment without `=` is dropped.
  - A kept segment is cut at its first `=`.
  - A missing or empty setting is an error.
- **Ingestion** (`rag_pipeline.py`).
  - The article text comes from the Next.js `__NEXT_DATA__` JSON embedded in
    each page. The path is `props → pageProps → articleContent → blocks`,
    followed by the truthy `text` of each block, joined by blank lines and
    stripped. There are three distinct sentinel strings: no script, empty
    content and parse failure.
  - Each visited URL becomes a document `TITLE: … CONTENT: …` whose source
    is its URL. A URL whose processing raises is skipped, and a failed cookie
    hand-over yields no documents.
  - The pipeline refuses an empty corpus.
  - The retrieved documents are joined by blank lines into the prompt
    context.

Modules:
- `wrappers.dfy`: `Option` and `Result`.
- `text.dfy`: the Python `str` operations the code uses. These are
  `isspace` with its exact Unicode set, `strip`, `split` on one character,
  `join`, and first-occurrence search.
- `json_data.dfy`: the decoded JSON value and the Python operations applied
  to it. These are truthiness, `value[key]`, `dict.get`, and what a `for`
  loop yields.
- `cookie_utils.dfy`: the cookie builder.
- `rag_pipeline.dfy`: extraction, document loading, pipeline construction
  and `format_docs`.

Loops in the source are methods with loop invariants. They are proved
against recursive specification functions, and the properties the code
promises are lemmas about those functions.

The environment reads, the browser and the HTML parser are inputs:
- `os.getenv` results are `Option<string>` parameters.
- What the browser got for the i-th URL is `visit(i)`. It is either a
  navigation failure or a loaded page with an optional `h1` text and a
  `__NEXT_DATA__` script element.
- Whether the browser context accepts a cookie list is the function
  `attach`.

Edge cases of the code that the model keeps as the code has them:
- Empty cookie names and values are kept: `"=1"` gives an empty name and
  `"a="` an empty value.
- An unset URL setting fails the build with `None.split` (AttributeError)
  before the cookie settings are read. The model does not treat it as an
  empty URL list.
- A block that is not a dict makes `block.get` raise AttributeError. Text
  that is not JSON makes `json.loads` raise JSONDecodeError. Neither is
  caught by the extractor's `except (KeyError, TypeError)`. Both escape to
  the per-URL handler, so the URL is skipped (`Extraction.Raised`) and gets
  no sentinel: extraction can raise.
- A script element without a single text child has `.string` equal to
  None. `json.loads(None)` is a TypeError, so the result is the
  parse-failure sentinel.
- A truthy `text` that is not a string is collected. The join then raises
  TypeError, which gives the parse-failure sentinel.

## Model

| member | source | states |
|---|---|---|
| CookieUtils.GetFormattedCookies | cookie_utils.py:6-30 | Fails exactly when the cookie string or the domain is unset or empty. Otherwise returns the records of the `;`-segments in order (loop proved against `CookiesOf`) |
| CookieUtils.CookieOfSpec | cookie_utils.py:19-28 | A segment yields a record iff its stripped form holds `=`. Name + `=` + value is that stripped form, the name has no `=`, and domain and path are the input domain and "/" |
| CookieUtils.CookiesMatchKeptSegments | cookie_utils.py:19-28 | One record per stripped segment containing `=`, same count and order. Each record spells its segment, has no `=` in the name, and carries the domain and "/" |
| CookieUtils.CookiesOfAppend | cookie_utils.py:19-28 | Segments are handled independently and in order: the records of `a + b` are those of `a` followed by those of `b` |
| CookieUtils.DroppedSegment | cookie_utils.py:20-21 | A segment whose stripped form has no `=` is dropped without changing the other records |
| CookieUtils.InnerSpacesKept | cookie_utils.py:20-22 | Only the whole segment is stripped: `" a = 1 "` gives name `"a "` and value `" 1"` |
| CookieUtils.CookieOfPair | cookie_utils.py:20-22 | A `name=value` pair inside any surrounding whitespace is read back as exactly that name and value, when the name has no `=` and the pair has no whitespace at its ends |
| CookieUtils.CookieStringRoundTrip | cookie_utils.py:19-28 | Writing records as `name=value` joined by `;` and parsing that string gives the same records back, for records without `;`, without `=` in the name and without whitespace at the pair's ends |
| CookieUtils.MixedHeader | cookie_utils.py:19-28 | `"a=1; b=2; bad; c=3"` yields the cookies a=1, b=2, c=3 in that order |
| Text.FindChar | cookie_utils.py:21-22 | The first index of the character, or None exactly when it does not occur (`'=' in pair` and `split('=', 1)`) |
| Text.StripSpec | cookie_utils.py:20 | `strip()` removes a whitespace prefix and suffix and nothing else, and the result neither starts nor ends with whitespace |
| Text.StripUnique | cookie_utils.py:20 | Stripping whitespace around a core that neither starts nor ends with whitespace gives back exactly that core |
| Text.StripEmptyIff | rag_pipeline.py:38-39 | The strip is empty exactly when the text is all whitespace |
| Text.Split | cookie_utils.py:19 | `split(sep)` gives at least one part, no part holds the separator, and joining the parts with the separator gives the input back |
| Text.SplitJoin | cookie_utils.py:19 | Splitting a join of separator-free parts gives back the parts |
| Text.JoinAppend | rag_pipeline.py:38 | The join of two non-empty lists is the first join, the separator, then the second join |
| Text.JoinLength | rag_pipeline.py:139 | A join's length is the parts' lengths plus one separator between each pair of neighbours |
| JsonData.Lookup | rag_pipeline.py:31 | A dict lookup finds the key's last binding, or None exactly when no member has the key |
| JsonData.Subscript | rag_pipeline.py:31 | Definition of `value[key]`: the dict lookup on a dict, None (KeyError or TypeError) otherwise. Its consequence is stated by the broken-path `ensures` of `ExtractContentFromJson` (parse-failure sentinel) and by `ArticleBlocks` |
| JsonData.Iterate | rag_pipeline.py:34 | Definition of what `for` yields: a list its items, a dict its keys, a string its characters, and null, a bool or a number a TypeError. Its consequences are stated by the non-iterable `ensures` of `ExtractContentFromJson`, `NonIterableBlocksFail`, `EmptyIterableBlocks`, `IteratingNonListRaises`, `NonDictBlockRaises` and `ExtractWellShaped` |
| RagPipeline.ExtractContentFromJson | rag_pipeline.py:23-43 | Loop proved against `ExtractContent`. No script gives the not-found sentinel. No text, a broken path or blocks that cannot be iterated give the parse-failure sentinel. Text that is not JSON raises. Extracted content is never empty |
| RagPipeline.CollectPartsRaisesIff | rag_pipeline.py:34-35 | The block loop raises (AttributeError escapes) exactly when some block is not a dict |
| RagPipeline.CollectPartsOfWellShaped | rag_pipeline.py:33-36 | For well-shaped blocks, the collected parts are the non-empty `text` strings in block order |
| RagPipeline.ExtractWellShaped | rag_pipeline.py:31-39 | For well-shaped blocks, the result is the strip of the blank-line join of the non-empty texts in block order, or the empty sentinel when that is empty |
| RagPipeline.CollectedText | rag_pipeline.py:35-36 | Every truthy `text` of a dict block is among the collected parts |
| RagPipeline.NonStringTextFails | rag_pipeline.py:35-43 | A truthy non-string `text` makes the join raise TypeError, giving the parse-failure sentinel |
| RagPipeline.IteratingNonListRaises | rag_pipeline.py:34-35 | Blocks that are a non-empty dict or string are iterated as keys or characters, and the first `.get` raises |
| RagPipeline.NonDictBlockRaises | rag_pipeline.py:35 | A block that is not a dict lets the error escape the extractor |
| RagPipeline.NonIterableBlocksFail | rag_pipeline.py:34-43 | Blocks that are null, a bool or a number make `for` raise TypeError, which is caught and gives the parse-failure sentinel |
| RagPipeline.EmptyIterableBlocks | rag_pipeline.py:34-39 | Blocks that are an empty dict or an empty string iterate to nothing and give the empty sentinel |
| RagPipeline.SentinelsDistinct | rag_pipeline.py:27-43 | The not-found, empty and parse-failure sentinels are three different strings |
| RagPipeline.DocumentContentRoundTrip | rag_pipeline.py:82 | The page content `TITLE: t\n\nCONTENT:\nc` gives back the title and the content for any title without a line break |
| RagPipeline.LoadDocs | rag_pipeline.py:46-92 | Loop proved against `LoadedDocs`. A failed cookie hand-over gives no documents, and there are never more documents than URLs |
| RagPipeline.GatheredMatchesProcessed | rag_pipeline.py:64-88 | Exactly one document per URL whose processing did not raise, in URL order, each being the document that URL yields. Failing URLs are skipped |
| RagPipeline.DocumentShape | rag_pipeline.py:71-85 | Each document is `TITLE: … CONTENT: …` built from some loaded URL's title and extracted content, with that URL as its source |
| RagPipeline.SecondOfThreeFails | rag_pipeline.py:64-88 | Of three URLs where the second fails, the documents are those of the first and the third, in that order |
| RagPipeline.ArticleUrlsUntrimmed | rag_pipeline.py:102 | The URL list splits the setting at every comma without trimming: the pieces hold no comma and re-join to the setting |
| RagPipeline.CreateRagChain | rag_pipeline.py:98-109 | An unset URL setting fails first, then missing cookie settings. Otherwise the corpus is the loaded documents, and an empty corpus fails. A successful build never has an empty corpus |
| RagPipeline.PageContents | rag_pipeline.py:139 | Definition of the generator `doc.page_content for doc in docs`. Its consequences are stated by `FormatDocsAppend` and `FormatDocsLength` |
| RagPipeline.FormatDocsAppend | rag_pipeline.py:138-139 | The context of two runs of documents is the first run's, a blank line, then the second run's |
| CookieUtils.CookieOf | cookie_utils.py:20-28 | The record of one segment; its contract is stated by `CookieOfSpec` (record iff the stripped segment holds `=`, name `=` value spells it, `=`-free name, domain and "/") and `CookieOfPair` |
| CookieUtils.CookiesOf | cookie_utils.py:18-28 | The records of the segments in order; its contract is stated by `CookiesMatchKeptSegments`, `CookiesOfAppend`, `DroppedSegment` and `CookieStringRoundTrip` |
| Text.Strip | cookie_utils.py:20 | `str.strip()`; its contract is stated by `StripSpec` and `StripUnique` (exactly the whitespace prefix and suffix are removed) and `StripEmptyIff` |
| Text.Join | rag_pipeline.py:38 | `sep.join(parts)`; its contract is stated by `JoinAppend`, `JoinLength` and, as the inverse of `Split`, `SplitJoin` |
| JsonData.Truthy | rag_pipeline.py:35 | Python truthiness of a decoded value, as `if block.get('text')` tests it; used by `CollectPartsOfWellShaped`, `ExtractWellShaped` (empty texts contribute nothing) and `NonStringTextFails` |
| RagPipeline.ArticleBlocks | rag_pipeline.py:31 | The nested lookup of `props`, `pageProps`, `articleContent`, `blocks`: a result only when the data is a dict with a `props` key; a broken path gives the parse-failure sentinel (`ExtractContentFromJson`) |
| RagPipeline.ExtractContent | rag_pipeline.py:23-43 | What the extractor returns: extracted text is never empty, and only a malformed or decoded script can raise. Its cases are stated by the `ensures` of `ExtractContentFromJson` (no script, no text, malformed, broken path, non-iterable blocks), `NonIterableBlocksFail`, `EmptyIterableBlocks`, `ExtractWellShaped`, `NonStringTextFails`, `NonDictBlockRaises` and `IteratingNonListRaises` |
| RagPipeline.PageTitle | rag_pipeline.py:71 | The `h1` text or "Título não encontrado"; `DocumentShape` states that every document's title line is the page title of its URL |
| RagPipeline.DocumentContent | rag_pipeline.py:82 | The page content format; `DocumentContentRoundTrip` states that title and content are recovered from it |
| RagPipeline.ProcessUrl | rag_pipeline.py:66-88 | One URL yields a document exactly when its page loaded and extraction did not raise, and the document's source is that URL |
| RagPipeline.ArticleUrls | rag_pipeline.py:102 | `split(',')` of the setting: at least one URL and none holds a comma; `ArticleUrlsUntrimmed` adds that they re-join to the setting (no trimming) |
| RagPipeline.FormatDocs | rag_pipeline.py:138-139 | `format_docs`: no documents give "", one document gives its page content; `FormatDocsAppend` and `FormatDocsLength` state order and length |
| RagPipeline.FormatDocsLength | rag_pipeline.py:138-139 | The context holds every page content once, with one blank line between neighbours |

## Left out

- Browser control (`sync_playwright`, launch, context, `page.goto`, `page.content`, `browser.close`) is foreign I/O. What each visit returned is the input `visit(i)`, and whether `add_cookies` accepted the records is the input `attach`. A failure of `launch`, `new_context`, `new_page` or `browser.close`, which sit outside every `try` and would escape `load_docs` and the pipeline build, is not modelled.
- HTML parsing with BeautifulSoup, finding the `__NEXT_DATA__` script and the `h1` element, and `get_text(strip=True)` are a library outside this model. The script element and the already-stripped heading are inputs.
- The text parser of `json.loads` is not modelled. Its result is the `Json` datatype, and malformed text is the `Malformed` script element.
- JsonData.Json: numbers are exact reals, so the `NaN` and `Infinity` literals `json.loads` accepts are not representable.
- JsonData.Iterate: yields one key per member even when a key repeats, whereas a Python dict holds each key once. The extractor only observes whether the dict is empty and that its keys are strings, and on both the two agree.
- RagPipeline.LoadDocs: `visit` is indexed by position in the URL list, so two occurrences of the same URL may load differently, as two real visits can.
- Text chunking (`RecursiveCharacterTextSplitter`), OpenAI embeddings, the Chroma vector store and retriever, the chat model, the prompt template and the runnable chain are remote services or libraries not part of this model. `CreateRagChain` stops at the corpus handed to the splitter.
- `st.cache_resource` memoisation is framework caching and is not modelled.
- All `print` logging is left out, including the warning check at `rag_pipeline.py:78`, which affects only the log.
- `app.py` (the Streamlit user interface) and `count_tokens.py` (a wrapper over `tiktoken`) are not part of this model.
- The `load_dotenv()` calls fill the environment from a file. Their effect is folded into the `Option<string>` settings.
