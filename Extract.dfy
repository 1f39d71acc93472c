/**
 * Per-page extraction in `scrape` (src/main.rs): from the parsed document,
 * the references taken from every `<script>` (its inline matches, then its
 * `src` attribute) followed by the `data-script-src` attribute of every
 * `<div>`, each turned into an absolute URL relative to the page.
 *
 * The document is the parser's output, already flattened into its elements
 * in document order; the text of an element is its inner text.
 */
module Extract {
  import opened Wrappers
  import opened Urls
  import opened InlineScan
  import opened Sequences

  datatype Element = Element(tag: string, attributes: map<string, string>, text: string)

  type Document = seq<Element>

  const ScriptSrc := "src"
  const DivScriptSrc := "data-script-src"

  predicate IsScript(e: Element) {
    e.tag == "script"
  }

  predicate IsDiv(e: Element) {
    e.tag == "div"
  }

  /** Inline matches go through the full normaliser, without the http(s) short-circuit. */
  function NormalizeAll(refs: seq<string>, url: Url): (r: seq<string>)
    requires HasHost(url)
    ensures |r| == |refs|
    ensures forall k :: 0 <= k < |refs| ==> r[k] == Normalize(refs[k], url)
  {
    seq(|refs|, k requires 0 <= k < |refs| => Normalize(refs[k], url))
  }

  /** The normalised `src` attribute of a script, when it has one. */
  function SrcResult(e: Element, url: Url): (r: seq<string>)
    requires HasHost(url)
    ensures ScriptSrc !in e.attributes <==> r == []
    ensures ScriptSrc in e.attributes ==> r == [NormalizeIfNeeded(e.attributes[ScriptSrc], url)]
  {
    if ScriptSrc in e.attributes then [NormalizeIfNeeded(e.attributes[ScriptSrc], url)] else []
  }

  /**
   * What one `<script>` element contributes: every inline match of its text,
   * fully normalised and in match order, and after them its `src` attribute,
   * when present, through the http(s) short-circuit.
   */
  function ScriptResults(e: Element, url: Url, isWord: char -> bool): (r: seq<string>)
    requires HasHost(url)
    ensures var inline := InlineMatches(isWord, e.text);
      |r| == |inline| + (if ScriptSrc in e.attributes then 1 else 0) &&
      (forall k :: 0 <= k < |inline| ==> r[k] == Normalize(inline[k], url)) &&
      (ScriptSrc in e.attributes ==> r[|r| - 1] == NormalizeIfNeeded(e.attributes[ScriptSrc], url))
  {
    NormalizeAll(InlineMatches(isWord, e.text), url) + SrcResult(e, url)
  }

  /** The results of every `<script>` of the document, in document order. */
  function ScriptsResults(doc: Document, url: Url, isWord: char -> bool): (r: seq<string>)
    requires HasHost(url)
    ensures |r| == InlineCount(doc, isWord) + SrcCount(doc)
  {
    if doc == [] then
      []
    else
      (if IsScript(doc[0]) then ScriptResults(doc[0], url, isWord) else [])
      + ScriptsResults(doc[1..], url, isWord)
  }

  /** What one `<div>` contributes: its normalised `data-script-src`, when present. */
  function DivResult(e: Element, url: Url): (r: seq<string>)
    requires HasHost(url)
    ensures |r| <= 1
    ensures r != [] <==> IsDiv(e) && DivScriptSrc in e.attributes
    ensures r != [] ==> r[0] == NormalizeIfNeeded(e.attributes[DivScriptSrc], url)
  {
    if IsDiv(e) && DivScriptSrc in e.attributes then
      [NormalizeIfNeeded(e.attributes[DivScriptSrc], url)]
    else
      []
  }

  /** The results of every `<div>` of the document, in document order. */
  function DivsResults(doc: Document, url: Url): (r: seq<string>)
    requires HasHost(url)
    ensures |r| == DivCount(doc)
  {
    if doc == [] then [] else DivResult(doc[0], url) + DivsResults(doc[1..], url)
  }

  /**
   * Everything one page yields: all script-derived results, then all
   * div-derived results. Their number is the page's inline matches, plus its
   * scripts with `src`, plus its divs with `data-script-src`.
   */
  function PageResults(doc: Document, url: Url, isWord: char -> bool): (r: seq<string>)
    requires HasHost(url)
    ensures |r| == InlineCount(doc, isWord) + SrcCount(doc) + DivCount(doc)
  {
    ScriptsResults(doc, url, isWord) + DivsResults(doc, url)
  }

  // Independent counts of what a document holds.

  /** The number of inline matches over all scripts. */
  function InlineCount(doc: Document, isWord: char -> bool): nat {
    if doc == [] then
      0
    else
      (if IsScript(doc[0]) then |InlineMatches(isWord, doc[0].text)| else 0)
      + InlineCount(doc[1..], isWord)
  }

  /** The number of scripts carrying a `src` attribute. */
  function SrcCount(doc: Document): nat {
    if doc == [] then
      0
    else
      (if IsScript(doc[0]) && ScriptSrc in doc[0].attributes then 1 else 0) + SrcCount(doc[1..])
  }

  /** The number of divs carrying a `data-script-src` attribute. */
  function DivCount(doc: Document): nat {
    if doc == [] then
      0
    else
      (if IsDiv(doc[0]) && DivScriptSrc in doc[0].attributes then 1 else 0) + DivCount(doc[1..])
  }

  lemma {:induction false} ScriptsResultsAppend(a: Document, b: Document, url: Url, isWord: char -> bool)
    requires HasHost(url)
    ensures ScriptsResults(a + b, url, isWord) == ScriptsResults(a, url, isWord) + ScriptsResults(b, url, isWord)
  {
    if a == [] {
      assert a + b == b;
    } else {
      assert (a + b)[1..] == a[1..] + b;
      ScriptsResultsAppend(a[1..], b, url, isWord);
    }
  }

  lemma {:induction false} DivsResultsAppend(a: Document, b: Document, url: Url)
    requires HasHost(url)
    ensures DivsResults(a + b, url) == DivsResults(a, url) + DivsResults(b, url)
  {
    if a == [] {
      assert a + b == b;
    } else {
      assert (a + b)[1..] == a[1..] + b;
      DivsResultsAppend(a[1..], b, url);
    }
  }

  /** A single element's share of the script-derived and div-derived results. */
  lemma SingleElement(e: Element, url: Url, isWord: char -> bool)
    requires HasHost(url)
    ensures ScriptsResults([e], url, isWord) == if IsScript(e) then ScriptResults(e, url, isWord) else []
    ensures DivsResults([e], url) == DivResult(e, url)
  {
    assert [e][1..] == [];
  }

  /** Splitting a document around the element at index i. */
  lemma SplitAt(doc: Document, i: nat, url: Url, isWord: char -> bool)
    requires i < |doc| && HasHost(url)
    ensures ScriptsResults(doc, url, isWord) ==
      ScriptsResults(doc[..i], url, isWord)
      + (if IsScript(doc[i]) then ScriptResults(doc[i], url, isWord) else [])
      + ScriptsResults(doc[i + 1..], url, isWord)
    ensures DivsResults(doc, url) ==
      DivsResults(doc[..i], url) + DivResult(doc[i], url) + DivsResults(doc[i + 1..], url)
  {
    assert doc == doc[..i] + [doc[i]] + doc[i + 1..];
    ScriptsResultsAppend(doc[..i] + [doc[i]], doc[i + 1..], url, isWord);
    ScriptsResultsAppend(doc[..i], [doc[i]], url, isWord);
    DivsResultsAppend(doc[..i] + [doc[i]], doc[i + 1..], url);
    DivsResultsAppend(doc[..i], [doc[i]], url);
    SingleElement(doc[i], url, isWord);
  }

  /**
   * Ordering of a page's results: a script's results sit at its place among
   * the scripts in document order, a div's result at its place among the divs,
   * and every script-derived result comes before every div-derived one, even
   * when the div comes first in the document.
   */
  lemma ScriptsBeforeDivs(doc: Document, i: nat, j: nat, url: Url, isWord: char -> bool)
    requires i < |doc| && j < |doc| && IsScript(doc[i]) && HasHost(url)
    ensures PageResults(doc, url, isWord) ==
      ScriptsResults(doc[..i], url, isWord) + ScriptResults(doc[i], url, isWord)
      + ScriptsResults(doc[i + 1..], url, isWord)
      + DivsResults(doc[..j], url) + DivResult(doc[j], url) + DivsResults(doc[j + 1..], url)
  {
    SplitAt(doc, i, url, isWord);
    SplitAt(doc, j, url, isWord);
    var scripts := ScriptsResults(doc, url, isWord);
    var before, at, after := DivsResults(doc[..j], url), DivResult(doc[j], url), DivsResults(doc[j + 1..], url);
    Associative(scripts, before + at, after);
    Associative(scripts, before, at);
  }

  /** Removing an element that is neither a script nor a div with `data-script-src` changes nothing. */
  lemma InertElement(doc: Document, i: nat, url: Url, isWord: char -> bool)
    requires i < |doc| && HasHost(url)
    requires !IsScript(doc[i]) && !(IsDiv(doc[i]) && DivScriptSrc in doc[i].attributes)
    ensures PageResults(doc[..i] + doc[i + 1..], url, isWord) == PageResults(doc, url, isWord)
  {
    SplitAt(doc, i, url, isWord);
    var rest := doc[..i] + doc[i + 1..];
    ScriptsResultsAppend(doc[..i], doc[i + 1..], url, isWord);
    DivsResultsAppend(doc[..i], doc[i + 1..], url);
    assert DivResult(doc[i], url) == [];
    var s1, s2 := ScriptsResults(doc[..i], url, isWord), ScriptsResults(doc[i + 1..], url, isWord);
    var d1, d2 := DivsResults(doc[..i], url), DivsResults(doc[i + 1..], url);
    assert ScriptsResults(doc, url, isWord) == s1 + [] + s2;
    assert DivsResults(doc, url) == d1 + [] + d2;
    assert s1 + [] == s1 && d1 + [] == d1;
  }

  /** An absolute URL as the page yields them: under the page's scheme, or an http(s) reference kept as found. */
  predicate IsPageAbsolute(r: string, url: Url) {
    StartsWith(r, url.scheme + "://") || IsHttpAbsolute(r)
  }

  lemma {:induction false} ScriptsResultsAbsolute(doc: Document, url: Url, isWord: char -> bool)
    requires HasHost(url)
    ensures forall r :: r in ScriptsResults(doc, url, isWord) ==> IsPageAbsolute(r, url)
  {
    if doc != [] {
      ScriptsResultsAbsolute(doc[1..], url, isWord);
    }
  }

  lemma {:induction false} DivsResultsAbsolute(doc: Document, url: Url)
    requires HasHost(url)
    ensures forall r :: r in DivsResults(doc, url) ==> IsPageAbsolute(r, url)
  {
    if doc != [] {
      DivsResultsAbsolute(doc[1..], url);
    }
  }

  /** Every result of a page is an absolute URL. */
  lemma PageResultsAbsolute(doc: Document, url: Url, isWord: char -> bool)
    requires HasHost(url)
    ensures forall r :: r in PageResults(doc, url, isWord) ==> IsPageAbsolute(r, url)
  {
    ScriptsResultsAbsolute(doc, url, isWord);
    DivsResultsAbsolute(doc, url);
  }

  /**
   * Inline matches skip the http(s) short-circuit: an inline match that is
   * already an http URL is still placed under the page's host.
   */
  lemma InlineAbsoluteRewritten(e: Element, url: Url, isWord: char -> bool, k: nat)
    requires HasHost(url) && k < |InlineMatches(isWord, e.text)|
    requires StartsWith(InlineMatches(isWord, e.text)[k], "http://")
    ensures ScriptResults(e, url, isWord)[k] ==
      url.scheme + "://" + url.host.value + "/" + InlineMatches(isWord, e.text)[k]
  {
    var m := InlineMatches(isWord, e.text)[k];
    assert m[0] == 'h';
    assert !StartsWith(m, "/");
    NormalizeShapes(m, url);
  }

  /** The two references of the example below, normalised on https://example.com. */
  lemma ExampleReferences()
    ensures NormalizeIfNeeded("/app.js", Url("https://example.com/p", "https", Some("example.com"))) == "https://example.com/app.js"
    ensures NormalizeIfNeeded("b.js", Url("https://example.com/p", "https", Some("example.com"))) == "https://example.com/b.js"
  {
    assert StartsWith("/app.js", "/") by { assert "/app.js"[..1] == "/"; }
    assert !StartsWith("/app.js", "//") by { assert "/app.js"[..2][1] == 'a'; }
    assert !IsHttpAbsolute("/app.js") by { assert "/app.js"[..7][0] == '/'; }
    assert !StartsWith("b.js", "/") by { assert "b.js"[..1][0] == 'b'; }
    assert "https" + "://" + "example.com" + "/app.js" == "https://example.com/app.js";
    assert "https" + "://" + "example.com" + "/" + "b.js" == "https://example.com/b.js";
  }

  /**
   * A page whose body is a script with `src="/app.js"` and a div with
   * `data-script-src="b.js"`, served from https://example.com/p.
   */
  lemma EndToEndExample(isWord: char -> bool)
    ensures var url := Url("https://example.com/p", "https", Some("example.com"));
      var doc := [Element("script", map["src" := "/app.js"], ""),
                  Element("div", map["data-script-src" := "b.js"], "")];
      PageResults(doc, url, isWord) == ["https://example.com/app.js", "https://example.com/b.js"]
  {
    var url := Url("https://example.com/p", "https", Some("example.com"));
    var s := Element("script", map["src" := "/app.js"], "");
    var d := Element("div", map["data-script-src" := "b.js"], "");
    ExampleReferences();
    assert InlineMatches(isWord, "") == [];
    var rs := ScriptResults(s, url, isWord);
    assert rs == ["https://example.com/app.js"] by {
      assert |rs| == 1 && rs[0] == NormalizeIfNeeded("/app.js", url);
    }
    assert [s, d][1..] == [d] && [d][1..] == [];
    assert ScriptsResults([s, d], url, isWord) == rs + ScriptsResults([d], url, isWord);
    assert ScriptsResults([d], url, isWord) == [];
    assert DivsResults([s, d], url) == DivsResults([d], url);
    assert DivsResults([d], url) == ["https://example.com/b.js"];
  }
}
