/**
 * The ingestion side of the retrieval pipeline: extracting an article's text
 * from the page data a Next.js page embeds, turning each visited URL into a
 * document, refusing an empty corpus, and joining retrieved documents into
 * the prompt context.
 */
module RagPipeline {
  import opened Wrappers
  import opened Text
  import opened JsonData
  import CookieUtils

  /** What the extractor returns when the page has no `__NEXT_DATA__` script. */
  const NotFoundSentinel: string := "Conteúdo JSON não encontrado"
  /** What the extractor returns when the blocks hold no text. */
  const EmptySentinel: string := "Conteúdo vazio nos blocos JSON"
  /** What the extractor returns on a caught KeyError or TypeError. */
  const ParseFailureSentinel: string := "Falha ao analisar a estrutura do JSON"
  /** The title of a page without an `h1` element. */
  const TitleNotFound: string := "Título não encontrado"
  /** Between text parts, and between documents in the prompt context. */
  const BlankLine: string := "\n\n"

  // ---------------------------------------------------------------------
  // Content extraction (`extract_content_from_json`)
  // ---------------------------------------------------------------------

  /** The `<script id="__NEXT_DATA__">` element as the HTML parser finds it. */
  datatype ScriptElement =
    | NoScript                 // no such element
    | NoString                 // its `.string` is None: no child, or several
    | Malformed                // its text is not JSON: `json.loads` raises JSONDecodeError
    | ScriptJson(data: Json)   // its text decoded

  /** The extractor either returns a string or lets an exception escape. */
  datatype Extraction = Extracted(text: string) | Raised

  /** `data['props']['pageProps']['articleContent']['blocks']`; None when
      a key is missing or a value on the way is not a dict. */
  function ArticleBlocks(data: Json): (r: Option<Json>)
    ensures r.Some? ==> data.JObject? && Lookup(data.members, "props").Some?
  {
    match Subscript(data, "props")
    case None => None
    case Some(props) =>
      match Subscript(props, "pageProps")
      case None => None
      case Some(pageProps) =>
        match Subscript(pageProps, "articleContent")
        case None => None
        case Some(article) => Subscript(article, "blocks")
  }

  /** What `if block.get('text'): content_parts.append(block['text'])`
      appends for a dict block: its `text` value when that is truthy. */
  function BlockText(block: Json): Option<Json>
    requires block.JObject?
  {
    var t := Lookup(block.members, "text");
    if t.Some? && Truthy(t.value) then t else None
  }

  /** `content_parts` after the loop over `blocks`; None when the loop
      raises AttributeError on a block that is not a dict. */
  function CollectParts(blocks: seq<Json>): Option<seq<Json>> {
    if blocks == [] then Some([])
    else
      match CollectParts(blocks[..|blocks| - 1])
      case None => None
      case Some(parts) =>
        var block := blocks[|blocks| - 1];
        if !block.JObject? then None
        else
          match BlockText(block)
          case None => Some(parts)
          case Some(t) => Some(parts + [t])
  }

  predicate AllStrings(parts: seq<Json>) {
    forall i :: 0 <= i < |parts| ==> parts[i].JString?
  }

  function Strings(parts: seq<Json>): seq<string>
    requires AllStrings(parts)
  {
    seq(|parts|, i requires 0 <= i < |parts| => parts[i].s)
  }

  /** The strip of the blank-line join of the parts, or the empty sentinel
      when that is empty. */
  function Finish(texts: seq<string>): string {
    var full := Strip(Join(texts, BlankLine));
    if full != "" then full else EmptySentinel
  }

  /** What `extract_content_from_json` does with the script element. */
  function ExtractContent(script: ScriptElement): (r: Extraction)
    ensures r.Extracted? ==> r.text != ""
    ensures r.Raised? ==> script.Malformed? || script.ScriptJson?
  {
    match script
    case NoScript => Extracted(NotFoundSentinel)
    case NoString => Extracted(ParseFailureSentinel)  // json.loads(None): TypeError
    case Malformed => Raised
    case ScriptJson(data) =>
      match ArticleBlocks(data)
      case None => Extracted(ParseFailureSentinel)
      case Some(blocks) =>
        match Iterate(blocks)
        case None => Extracted(ParseFailureSentinel)   // not iterable: TypeError
        case Some(items) =>
          match CollectParts(items)
          case None => Raised
          case Some(parts) =>
            // "\n\n".join raises TypeError on a part that is not a str
            if AllStrings(parts) then Extracted(Finish(Strings(parts)))
            else Extracted(ParseFailureSentinel)
  }

  /** `extract_content_from_json`, with the page's script element as input. */
  method ExtractContentFromJson(script: ScriptElement) returns (r: Extraction)
    ensures r == ExtractContent(script)
    ensures script.NoScript? ==> r == Extracted(NotFoundSentinel)
    ensures script.NoString? ==> r == Extracted(ParseFailureSentinel)
    ensures script.Malformed? ==> r == Raised
    ensures script.ScriptJson? && ArticleBlocks(script.data).None? ==> r == Extracted(ParseFailureSentinel)
    ensures script.ScriptJson? && ArticleBlocks(script.data).Some? ==>
      Iterate(ArticleBlocks(script.data).value).None? ==> r == Extracted(ParseFailureSentinel)
    ensures r.Extracted? ==> r.text != ""
  {
    var data: Json;
    match script {
      case NoScript => return Extracted(NotFoundSentinel);
      case NoString => return Extracted(ParseFailureSentinel);
      case Malformed => return Raised;
      case ScriptJson(d) => data := d;
    }
    var articleBlocks := ArticleBlocks(data);
    if articleBlocks.None? {
      return Extracted(ParseFailureSentinel);
    }
    var iteration := Iterate(articleBlocks.value);
    if iteration.None? {
      return Extracted(ParseFailureSentinel);
    }
    var blocks := iteration.value;
    var contentParts: seq<Json> := [];
    for i := 0 to |blocks|
      invariant CollectParts(blocks[..i]) == Some(contentParts)
    {
      var block := blocks[i];
      assert blocks[..i + 1][..i] == blocks[..i];
      if !block.JObject? {
        CollectPartsRaisesIff(blocks);
        return Raised;
      }
      var text := Lookup(block.members, "text");
      if text.Some? && Truthy(text.value) {
        contentParts := contentParts + [text.value];
      }
    }
    assert blocks[..|blocks|] == blocks;
    if !AllStrings(contentParts) {
      return Extracted(ParseFailureSentinel);
    }
    var fullContent := Strip(Join(Strings(contentParts), BlankLine));
    r := if fullContent != "" then Extracted(fullContent) else Extracted(EmptySentinel);
  }

  /** The loop over the blocks raises exactly when some block is not a dict. */
  lemma {:induction false} CollectPartsRaisesIff(blocks: seq<Json>)
    ensures CollectParts(blocks).None? <==> exists i :: 0 <= i < |blocks| && !blocks[i].JObject?
  {
    if blocks != [] {
      var init := blocks[..|blocks| - 1];
      CollectPartsRaisesIff(init);
      assert forall i :: 0 <= i < |init| ==> init[i] == blocks[i];
    }
  }

  /** A dict block's `text` when it is a non-empty string, else nothing. */
  function StringText(block: Json): Option<string> {
    match block
    case JObject(members) =>
      (match Lookup(members, "text")
       case Some(JString(s)) => if s != "" then Some(s) else None
       case _ => None)
    case _ => None
  }

  /** A block of the expected shape: a dict whose `text`, if truthy, is a string. */
  predicate WellShaped(block: Json) {
    block.JObject? &&
    match Lookup(block.members, "text")
    case None => true
    case Some(t) => !Truthy(t) || t.JString?
  }

  /** The non-empty `text` strings of the blocks, in block order. */
  function BlockTexts(blocks: seq<Json>): seq<string> {
    if blocks == [] then []
    else
      var earlier := BlockTexts(blocks[..|blocks| - 1]);
      match StringText(blocks[|blocks| - 1])
      case None => earlier
      case Some(s) => earlier + [s]
  }

  lemma {:induction false} CollectPartsOfWellShaped(blocks: seq<Json>)
    requires forall i :: 0 <= i < |blocks| ==> WellShaped(blocks[i])
    ensures CollectParts(blocks).Some?
    ensures AllStrings(CollectParts(blocks).value)
    ensures Strings(CollectParts(blocks).value) == BlockTexts(blocks)
  {
    if blocks != [] {
      var init := blocks[..|blocks| - 1];
      assert forall i :: 0 <= i < |init| ==> init[i] == blocks[i];
      CollectPartsOfWellShaped(init);
    }
  }

  /** On a page whose blocks have the expected shape, the content is the
      strip of the blank-line join of the non-empty `text` strings in block
      order (blocks without text contribute nothing), or the empty sentinel
      when that strip is empty. */
  lemma ExtractWellShaped(data: Json, blocks: seq<Json>)
    requires ArticleBlocks(data) == Some(JArray(blocks))
    requires forall i :: 0 <= i < |blocks| ==> WellShaped(blocks[i])
    ensures var full := Strip(Join(BlockTexts(blocks), BlankLine));
      ExtractContent(ScriptJson(data)) == Extracted(if full != "" then full else EmptySentinel)
  {
    CollectPartsOfWellShaped(blocks);
    ExtractOfParts(data, blocks, CollectParts(blocks).value);
  }

  lemma ExtractOfParts(data: Json, items: seq<Json>, parts: seq<Json>)
    requires ArticleBlocks(data) == Some(JArray(items))
    requires CollectParts(items) == Some(parts) && AllStrings(parts)
    ensures ExtractContent(ScriptJson(data)) == Extracted(Finish(Strings(parts)))
  {
  }

  /** A truthy `text` that is not a string (a number, a list, a dict, true)
      is collected, and the join then fails with the parse-failure sentinel. */
  lemma NonStringTextFails(data: Json, blocks: seq<Json>, k: nat)
    requires ArticleBlocks(data) == Some(JArray(blocks))
    requires forall i :: 0 <= i < |blocks| ==> blocks[i].JObject?
    requires k < |blocks| && BlockText(blocks[k]).Some? && !BlockText(blocks[k]).value.JString?
    ensures ExtractContent(ScriptJson(data)) == Extracted(ParseFailureSentinel)
  {
    CollectPartsRaisesIff(blocks);
    var parts := CollectParts(blocks).value;
    CollectedText(blocks, k);
  }

  /** Every truthy `text` of a dict block ends up among the collected parts. */
  lemma {:induction false} CollectedText(blocks: seq<Json>, k: nat)
    requires k < |blocks| && blocks[k].JObject? && BlockText(blocks[k]).Some?
    requires CollectParts(blocks).Some?
    ensures BlockText(blocks[k]).value in CollectParts(blocks).value
  {
    var init := blocks[..|blocks| - 1];
    if k < |blocks| - 1 {
      assert init[k] == blocks[k];
      CollectedText(init, k);
    }
  }

  /** A block list that is a non-empty dict or string is iterated key by key
      or character by character, and the first `.get` raises. */
  lemma IteratingNonListRaises(data: Json, blocks: Json)
    requires ArticleBlocks(data) == Some(blocks)
    requires (blocks.JObject? && blocks.members != []) || (blocks.JString? && blocks.s != "")
    ensures ExtractContent(ScriptJson(data)) == Raised
  {
    var items := Iterate(blocks).value;
    assert !items[0].JObject?;
    CollectPartsRaisesIff(items);
  }

  /** Blocks that are null, a bool or a number cannot be iterated: the
      TypeError is caught and gives the parse-failure sentinel. */
  lemma NonIterableBlocksFail(data: Json, blocks: Json)
    requires ArticleBlocks(data) == Some(blocks)
    requires blocks.JNull? || blocks.JBool? || blocks.JNumber?
    ensures ExtractContent(ScriptJson(data)) == Extracted(ParseFailureSentinel)
  {
  }

  /** Blocks that are an empty dict or an empty string iterate to nothing,
      so the content is the empty sentinel. */
  lemma EmptyIterableBlocks(data: Json, blocks: Json)
    requires ArticleBlocks(data) == Some(blocks)
    requires blocks == JObject([]) || blocks == JString("")
    ensures ExtractContent(ScriptJson(data)) == Extracted(EmptySentinel)
  {
    var items := Iterate(blocks).value;
    assert |items| == 0;
    assert CollectParts(items) == Some([]);
    assert Strip(Join([], BlankLine)) == "";
  }

  /** A block that is not a dict lets AttributeError escape the extractor. */
  lemma NonDictBlockRaises(data: Json, blocks: seq<Json>, k: nat)
    requires ArticleBlocks(data) == Some(JArray(blocks))
    requires k < |blocks| && !blocks[k].JObject?
    ensures ExtractContent(ScriptJson(data)) == Raised
  {
    CollectPartsRaisesIff(blocks);
  }

  /** The three sentinels are different strings. */
  lemma SentinelsDistinct()
    ensures NotFoundSentinel != EmptySentinel
    ensures NotFoundSentinel != ParseFailureSentinel
    ensures EmptySentinel != ParseFailureSentinel
  {
    assert NotFoundSentinel[9] != EmptySentinel[9];
    assert NotFoundSentinel[0] != ParseFailureSentinel[0];
    assert EmptySentinel[0] != ParseFailureSentinel[0];
  }

  // ---------------------------------------------------------------------
  // Documents (`load_docs`)
  // ---------------------------------------------------------------------

  /** What the browser got for one URL: navigation or reading the page
      raised, or the page loaded with an optional `h1` text (already
      stripped by the HTML parser) and its script element. */
  datatype PageOutcome =
    | NavigationFailed
    | Loaded(heading: Option<string>, script: ScriptElement)

  /** A LangChain document: its page content and its `source` metadata. */
  datatype Document = Document(pageContent: string, source: string)

  function PageTitle(heading: Option<string>): string {
    match heading
    case Some(h) => h
    case None => TitleNotFound
  }

  /** The page content of a document: a title line, a blank line, a content
      header and the extracted content. */
  function DocumentContent(title: string, content: string): string {
    "TITLE: " + title + "\n\nCONTENT:\n" + content
  }

  /** Reads a document's page content back into its title and content:
      the title runs up to the first line break. */
  function ParseDocumentContent(s: string): Option<(string, string)> {
    if |s| < 7 || s[..7] != "TITLE: " then None
    else
      var rest := s[7..];
      match FindChar(rest, '\n')
      case None => None
      case Some(i) =>
        if |rest| - i < 11 || rest[i..i + 11] != "\n\nCONTENT:\n" then None
        else Some((rest[..i], rest[i + 11..]))
  }

  /** A title without a line break and any content are recovered exactly. */
  lemma DocumentContentRoundTrip(title: string, content: string)
    requires '\n' !in title
    ensures ParseDocumentContent(DocumentContent(title, content)) == Some((title, content))
  {
    var s := DocumentContent(title, content);
    var rest := s[7..];
    assert s[..7] == "TITLE: ";
    assert rest == title + "\n\nCONTENT:\n" + content;
    var i := |title|;
    assert rest[..i] == title;
    assert rest[i] == '\n';
    assert FindChar(rest, '\n') == Some(i);
    assert rest[i..i + 11] == "\n\nCONTENT:\n";
    assert rest[i + 11..] == content;
  }

  /** The document one URL yields, or none when its processing raised. */
  function ProcessUrl(url: string, outcome: PageOutcome): (r: Option<Document>)
    ensures r.Some? ==> r.value.source == url && outcome.Loaded?
    ensures r.Some? <==> outcome.Loaded? && ExtractContent(outcome.script).Extracted?
  {
    match outcome
    case NavigationFailed => None
    case Loaded(heading, script) =>
      match ExtractContent(script)
      case Raised => None
      case Extracted(content) => Some(Document(DocumentContent(PageTitle(heading), content), url))
  }

  /** The documents of the URLs, in URL order; `visit(i)` is what the
      browser got for the i-th URL. */
  function Gathered(urls: seq<string>, visit: nat -> PageOutcome): (docs: seq<Document>)
    ensures |docs| <= |urls|
  {
    if urls == [] then []
    else
      var earlier := Gathered(urls[..|urls| - 1], visit);
      match ProcessUrl(urls[|urls| - 1], visit(|urls| - 1))
      case None => earlier
      case Some(doc) => earlier + [doc]
  }

  /** The positions of the URLs whose processing did not raise, in order. */
  function Processed(urls: seq<string>, visit: nat -> PageOutcome): seq<nat> {
    if urls == [] then []
    else
      var earlier := Processed(urls[..|urls| - 1], visit);
      if ProcessUrl(urls[|urls| - 1], visit(|urls| - 1)).Some? then earlier + [|urls| - 1] else earlier
  }

  function LoadedDocs(urls: seq<string>, cookiesAttached: bool, visit: nat -> PageOutcome): seq<Document> {
    if cookiesAttached then Gathered(urls, visit) else []
  }

  /** `load_docs`: the browser is replaced by whether the context accepted
      the cookies and by what each visit returned. */
  method LoadDocs(urls: seq<string>, cookiesAttached: bool, visit: nat -> PageOutcome)
    returns (docs: seq<Document>)
    ensures docs == LoadedDocs(urls, cookiesAttached, visit)
    ensures !cookiesAttached ==> docs == []
    ensures |docs| <= |urls|
  {
    if !cookiesAttached {
      return [];
    }
    docs := [];
    for i := 0 to |urls|
      invariant docs == Gathered(urls[..i], visit)
    {
      assert urls[..i + 1][..i] == urls[..i];
      match visit(i) {
        case NavigationFailed =>
        case Loaded(heading, script) =>
          var title := PageTitle(heading);
          var content := ExtractContentFromJson(script);
          if content.Extracted? {
            docs := docs + [Document(DocumentContent(title, content.text), urls[i])];
          }
      }
    }
    assert urls[..|urls|] == urls;
    GatheredMatchesProcessed(urls, visit);
  }

  /** Exactly one document per URL whose processing did not raise, in URL
      order: the k-th document is the one the k-th such URL yields, its
      source is that URL, and failing URLs leave the later ones untouched. */
  lemma {:induction false} GatheredMatchesProcessed(urls: seq<string>, visit: nat -> PageOutcome)
    ensures var docs, idx := Gathered(urls, visit), Processed(urls, visit);
      |docs| == |idx| &&
      (forall k :: 0 <= k < |idx| ==> idx[k] < |urls|) &&
      (forall k, l :: 0 <= k < l < |idx| ==> idx[k] < idx[l]) &&
      (forall k :: 0 <= k < |idx| ==> ProcessUrl(urls[idx[k]], visit(idx[k])) == Some(docs[k])) &&
      (forall i :: 0 <= i < |urls| ==> (ProcessUrl(urls[i], visit(i)).Some? <==> i in idx))
  {
    if urls != [] {
      var n := |urls| - 1;
      var init := urls[..n];
      GatheredMatchesProcessed(init, visit);
      assert forall i :: 0 <= i < |init| ==> init[i] == urls[i];
      var docs0, idx0 := Gathered(init, visit), Processed(init, visit);
      match ProcessUrl(urls[n], visit(n)) {
        case None =>
          assert Gathered(urls, visit) == docs0;
          assert Processed(urls, visit) == idx0;
        case Some(d) =>
          assert Gathered(urls, visit) == docs0 + [d];
          assert Processed(urls, visit) == idx0 + [n];
      }
    }
  }

  /** Each document's content is the title line, a blank line, the content
      header and the extracted content, and its source is its URL. */
  lemma DocumentShape(urls: seq<string>, visit: nat -> PageOutcome, k: nat)
    requires k < |Gathered(urls, visit)|
    ensures exists i :: (0 <= i < |urls| && visit(i).Loaded? &&
      ExtractContent(visit(i).script).Extracted? &&
      Gathered(urls, visit)[k] ==
        Document(DocumentContent(PageTitle(visit(i).heading), ExtractContent(visit(i).script).text), urls[i]))
  {
    GatheredMatchesProcessed(urls, visit);
    var i := Processed(urls, visit)[k];
    assert ProcessUrl(urls[i], visit(i)) == Some(Gathered(urls, visit)[k]);
  }

  /** Three URLs where the second fails to load give two documents, for the
      first and the third URL, in that order. */
  lemma SecondOfThreeFails(u1: string, u2: string, u3: string, visit: nat -> PageOutcome)
    requires visit(1) == NavigationFailed
    requires ProcessUrl(u1, visit(0)).Some? && ProcessUrl(u3, visit(2)).Some?
    ensures LoadedDocs([u1, u2, u3], true, visit)
      == [ProcessUrl(u1, visit(0)).value, ProcessUrl(u3, visit(2)).value]
    ensures LoadedDocs([u1, u2, u3], true, visit)[0].source == u1
    ensures LoadedDocs([u1, u2, u3], true, visit)[1].source == u3
  {
    var urls := [u1, u2, u3];
    var d1, d3 := ProcessUrl(u1, visit(0)).value, ProcessUrl(u3, visit(2)).value;
    assert [u1][..0] == [];
    assert Gathered([u1], visit) == [d1];
    assert [u1, u2][..1] == [u1];
    assert Gathered([u1, u2], visit) == [d1];
    assert urls[..2] == [u1, u2];
    assert Gathered(urls, visit) == [d1, d3];
  }

  // ---------------------------------------------------------------------
  // Pipeline construction (`create_rag_chain`) and `format_docs`
  // ---------------------------------------------------------------------

  /** Why building the pipeline fails. */
  datatype BuildError =
    | UrlsUnset                                   // `None.split`: AttributeError
    | CookieConfig(error: CookieUtils.ConfigError)  // from the cookie builder
    | NoDocuments                                 // the empty-corpus ValueError

  /** The URL list: the setting split at every comma, nothing trimmed. */
  function ArticleUrls(urlsSetting: string): (urls: seq<string>)
    ensures |urls| >= 1 && forall i :: 0 <= i < |urls| ==> ',' !in urls[i]
  {
    Split(urlsSetting, ',')
  }

  /** The URLs keep their spaces: joining them with commas gives back the
      setting, and none of them holds a comma. */
  lemma ArticleUrlsUntrimmed(urlsSetting: string)
    ensures var urls := ArticleUrls(urlsSetting);
      |urls| >= 1 && Join(urls, ",") == urlsSetting &&
      forall i :: 0 <= i < |urls| ==> ',' !in urls[i]
  {
  }

  /** The part of `create_rag_chain` that runs before chunking: the corpus
      the text splitter receives, or the error that stops the build.
      `attach` says whether the browser context accepts a cookie list. */
  method CreateRagChain(urlsSetting: Option<string>, cookieSetting: Option<string>,
                        domainSetting: Option<string>, attach: seq<CookieUtils.Cookie> -> bool,
                        visit: nat -> PageOutcome)
    returns (r: Result<seq<Document>, BuildError>)
    ensures urlsSetting.None? ==> r == Failure(UrlsUnset)
    ensures urlsSetting.Some? && !(CookieUtils.Provided(cookieSetting) && CookieUtils.Provided(domainSetting))
      ==> r == Failure(CookieConfig(CookieUtils.SessionConfigMissing))
    ensures urlsSetting.Some? && CookieUtils.Provided(cookieSetting) && CookieUtils.Provided(domainSetting) ==>
      var cookies := CookieUtils.CookiesOf(Split(cookieSetting.value, ';'), domainSetting.value);
      var docs := LoadedDocs(ArticleUrls(urlsSetting.value), attach(cookies), visit);
      r == if docs == [] then Failure(NoDocuments) else Success(docs)
    ensures r.Success? ==> r.value != []
  {
    if urlsSetting.None? {
      return Failure(UrlsUnset);
    }
    var articleUrls := ArticleUrls(urlsSetting.value);
    var sessionCookies := CookieUtils.GetFormattedCookies(cookieSetting, domainSetting);
    if sessionCookies.Failure? {
      assert sessionCookies.error == CookieUtils.SessionConfigMissing;
      return Failure(CookieConfig(sessionCookies.error));
    }
    var docs := LoadDocs(articleUrls, attach(sessionCookies.value), visit);
    if docs == [] {
      return Failure(NoDocuments);
    }
    return Success(docs);
  }

  /** The page contents of the documents, in order. */
  function PageContents(docs: seq<Document>): seq<string> {
    seq(|docs|, i requires 0 <= i < |docs| => docs[i].pageContent)
  }

  /** `format_docs`: the retrieved documents' contents joined by blank lines. */
  function FormatDocs(docs: seq<Document>): (r: string)
    ensures docs == [] ==> r == ""
    ensures |docs| == 1 ==> r == docs[0].pageContent
  {
    Join(PageContents(docs), BlankLine)
  }

  /** The context keeps the retrieved order: the context of two runs of
      documents is the first run's, a blank line, then the second run's. */
  lemma FormatDocsAppend(a: seq<Document>, b: seq<Document>)
    requires a != [] && b != []
    ensures FormatDocs(a + b) == FormatDocs(a) + BlankLine + FormatDocs(b)
  {
    assert PageContents(a + b) == PageContents(a) + PageContents(b);
    JoinAppend(PageContents(a), PageContents(b), BlankLine);
  }

  /** The context counts every page content once and one blank line
      between neighbours: nothing is added or lost. */
  lemma FormatDocsLength(docs: seq<Document>)
    requires docs != []
    ensures |FormatDocs(docs)| == SumLengths(PageContents(docs)) + 2 * (|docs| - 1)
  {
    JoinLength(PageContents(docs), BlankLine);
  }
}
