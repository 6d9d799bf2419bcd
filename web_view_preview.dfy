/**
 * The web preview of a markdown editor (WebViewPreview): the queue of
 * actions deferred while the web engine is loading, the scroll and
 * selection state kept between renderings, the collection of the
 * languages of fenced code blocks together with their Prism dependency
 * chains, and the assembly of the HTML document that is loaded.
 *
 * The web engine is reduced to its load state and to the scripts it is
 * asked to run; resource lookup is the oracle `resource`, which gives the
 * URL of a bundled file or None; the markdown AST is the datatype Node.
 */
module WebViewPreview {
  import opened Wrappers
  import opened JavaText
  import opened PrismDependencies

  /**
   * The markdown AST as the language collector sees it: a fenced code
   * block with its info string (and content it never looks into), or any
   * other node with its children.
   */
  datatype Node =
    | FencedCodeBlock(info: string, content: seq<Node>)
    | Other(children: seq<Node>)

  /** javafx.scene.control.IndexRange. */
  datatype IndexRange = IndexRange(start: int, end: int)

  /** Worker.State of the engine's load worker. */
  datatype LoadState = Ready | Scheduled | Running | Succeeded | Cancelled | Failed

  /** Worker.isRunning(): true while the load is scheduled or running. */
  predicate IsRunning(s: LoadState) {
    s == Scheduled || s == Running
  }

  /** The two kinds of deferred action, each one script run in the page. */
  datatype Action =
    | ScrollTo(value: real)    // preview.scrollTo(value)
    | HighlightAt(end: int)    // preview.highlightNodesAt(end)

  // ---------------------------------------------------------------------
  // Dependency chains
  // ---------------------------------------------------------------------

  /** Following `deps` from `lang` reaches a language without an entry within `fuel` steps. */
  predicate ChainEnds(deps: map<string, string>, lang: string, fuel: nat)
    decreases fuel
  {
    lang !in deps || (fuel > 0 && ChainEnds(deps, deps[lang], fuel - 1))
  }

  /**
   * The source follows the table without a cycle check. A chain that ends
   * visits distinct keys, so it ends within |deps| steps; a language whose
   * chain is cyclic makes the source loop forever and is excluded here.
   */
  predicate Terminates(deps: map<string, string>, lang: string) {
    ChainEnds(deps, lang, |deps|)
  }

  predicate AllTerminate(deps: map<string, string>, langs: seq<string>) {
    forall k :: 0 <= k < |langs| ==> Terminates(deps, langs[k])
  }

  /** deps[lang], deps[deps[lang]], ... up to the first language without an entry. */
  function Chain(deps: map<string, string>, lang: string, fuel: nat): (c: seq<string>)
    requires ChainEnds(deps, lang, fuel)
    ensures |c| <= fuel
    ensures lang !in deps <==> c == []
    ensures c != [] ==> c[0] == deps[lang] && c[|c| - 1] !in deps
    ensures forall k :: 0 <= k < |c| - 1 ==> c[k] in deps && c[k + 1] == deps[c[k]]
    decreases fuel
  {
    if lang !in deps then [] else [deps[lang]] + Chain(deps, deps[lang], fuel - 1)
  }

  function Reverse(s: seq<string>): (r: seq<string>)
    ensures |r| == |s|
  {
    if s == [] then [] else Reverse(s[1..]) + [s[0]]
  }

  lemma {:induction false} ReverseHas(s: seq<string>, d: string)
    requires d in s
    ensures d in Reverse(s)
  {
    if s[0] != d {
      ReverseHas(s[1..], d);
    }
  }

  lemma AllTerminateSplit(deps: map<string, string>, a: seq<string>, b: seq<string>)
    requires AllTerminate(deps, a + b)
    ensures AllTerminate(deps, a) && AllTerminate(deps, b)
  {
    forall k | 0 <= k < |a|
      ensures Terminates(deps, a[k])
    {
      assert (a + b)[k] == a[k];
    }
    forall k | 0 <= k < |b|
      ensures Terminates(deps, b[k])
    {
      assert (a + b)[|a| + k] == b[k];
    }
  }

  lemma AllTerminateJoin(deps: map<string, string>, a: seq<string>, b: seq<string>)
    requires AllTerminate(deps, a) && AllTerminate(deps, b)
    ensures AllTerminate(deps, a + b)
  {
    forall k | 0 <= k < |a + b|
      ensures Terminates(deps, (a + b)[k])
    {
      if k < |a| {
        assert (a + b)[k] == a[k];
      } else {
        assert (a + b)[k] == b[k - |a|];
      }
    }
  }

  lemma AllTerminateTail(deps: map<string, string>, a: seq<string>)
    requires AllTerminate(deps, a) && a != []
    ensures Terminates(deps, a[0]) && AllTerminate(deps, a[1..])
  {
    forall k | 0 <= k < |a| - 1
      ensures Terminates(deps, a[1..][k])
    {
      assert a[1..][k] == a[k + 1];
    }
  }

  // ---------------------------------------------------------------------
  // Collecting the languages of fenced code blocks
  // ---------------------------------------------------------------------

  /** The info strings of the fenced code blocks, in the order they are visited. */
  function Blocks(n: Node): seq<string>
    decreases n, 1
  {
    match n
    case FencedCodeBlock(info, _) => [info]
    case Other(_) => ChildBlocks(n, 0)
  }

  function ChildBlocks(n: Node, i: nat): seq<string>
    requires n.Other? && i <= |n.children|
    decreases n, 0, |n.children| - i
  {
    if i == |n.children| then [] else Blocks(n.children[i]) + ChildBlocks(n, i + 1)
  }

  /**
   * The dependencies in the list after the blocks `bs` were visited: each
   * block pushes its chain to the front, so the chain of a later block
   * comes first and every chain appears reversed.
   */
  function DepsPrefix(deps: map<string, string>, bs: seq<string>): seq<string>
    requires AllTerminate(deps, bs)
  {
    if bs == [] then [] else DepsPrefix(deps, bs[1..]) + Reverse(Chain(deps, bs[0], |deps|))
  }

  /** The list after visiting blocks `bs` starting from `languages`. */
  function Collected(deps: map<string, string>, languages: seq<string>, bs: seq<string>): seq<string>
    requires AllTerminate(deps, bs)
  {
    DepsPrefix(deps, bs) + languages + bs
  }

  lemma {:induction false} DepsPrefixAppend(deps: map<string, string>, a: seq<string>, b: seq<string>)
    requires AllTerminate(deps, a) && AllTerminate(deps, b)
    ensures AllTerminate(deps, a + b)
    ensures DepsPrefix(deps, a + b) == DepsPrefix(deps, b) + DepsPrefix(deps, a)
  {
    AllTerminateJoin(deps, a, b);
    if a == [] {
      assert a + b == b;
    } else {
      var t := a[1..];
      var c := Reverse(Chain(deps, a[0], |deps|));
      AllTerminateTail(deps, a);
      assert (a + b)[0] == a[0] && (a + b)[1..] == t + b;
      DepsPrefixAppend(deps, t, b);
      assert DepsPrefix(deps, a + b) == DepsPrefix(deps, t + b) + c;
      assert DepsPrefix(deps, a) == DepsPrefix(deps, t) + c;
      AppendAssoc(DepsPrefix(deps, b), DepsPrefix(deps, t), c);
    }
  }

  /** Visiting `a` and then `b` is visiting `a + b`. */
  lemma CollectedAppend(deps: map<string, string>, languages: seq<string>, a: seq<string>, b: seq<string>)
    requires AllTerminate(deps, a) && AllTerminate(deps, b)
    ensures AllTerminate(deps, a + b)
    ensures Collected(deps, Collected(deps, languages, a), b) == Collected(deps, languages, a + b)
  {
    DepsPrefixAppend(deps, a, b);
  }

  /**
   * The fenced-block branch of processNode: append the info string, then
   * insert each language of its dependency chain at index 0.
   */
  method AddFencedBlock(deps: map<string, string>, languages: seq<string>, info: string) returns (r: seq<string>)
    requires Terminates(deps, info)
    ensures r == Reverse(Chain(deps, info, |deps|)) + languages + [info]
  {
    r := languages + [info];
    var language := info;
    ghost var fuel: nat := |deps|;
    while language in deps
      invariant ChainEnds(deps, language, fuel)
      invariant Reverse(Chain(deps, info, |deps|)) + languages + [info] == Reverse(Chain(deps, language, fuel)) + r
      decreases fuel
    {
      var next := deps[language];
      ReverseChainStep(deps, language, fuel);
      AppendAssoc(Reverse(Chain(deps, next, fuel - 1)), [next], r);
      language := next;
      r := [language] + r;
      fuel := fuel - 1;
    }
    assert Reverse(Chain(deps, language, fuel)) == [];
  }

  /** One step along a chain puts the next language at the end of the reversed chain. */
  lemma ReverseChainStep(deps: map<string, string>, lang: string, fuel: nat)
    requires ChainEnds(deps, lang, fuel) && lang in deps
    ensures Reverse(Chain(deps, lang, fuel)) == Reverse(Chain(deps, deps[lang], fuel - 1)) + [deps[lang]]
  {
    var c := Chain(deps, lang, fuel);
    assert c == [deps[lang]] + Chain(deps, deps[lang], fuel - 1);
    assert c[1..] == Chain(deps, deps[lang], fuel - 1);
  }

  lemma AppendAssoc(a: seq<string>, b: seq<string>, c: seq<string>)
    ensures a + b + c == a + (b + c)
  {
  }

  /**
   * The visitor: a fenced block is handled and not descended into, any
   * other node has its children visited in order. The result is the list
   * of every block's dependencies (later blocks first) followed by the
   * given list and every block's info string in visiting order.
   */
  method Visit(deps: map<string, string>, languages: seq<string>, n: Node) returns (r: seq<string>)
    requires AllTerminate(deps, Blocks(n))
    ensures r == Collected(deps, languages, Blocks(n))
    decreases n, 1
  {
    match n
    case FencedCodeBlock(info, _) =>
      assert Blocks(n) == [info];
      assert Terminates(deps, Blocks(n)[0]);
      r := AddFencedBlock(deps, languages, info);
      assert DepsPrefix(deps, [info]) == Reverse(Chain(deps, info, |deps|)) by {
        assert [info][1..] == [];
      }
    case Other(children) =>
      r := languages;
      var i := 0;
      while i < |children|
        invariant 0 <= i <= |children|
        invariant AllTerminate(deps, ChildBlocks(n, i))
        invariant Collected(deps, languages, Blocks(n)) == Collected(deps, r, ChildBlocks(n, i))
      {
        var before := r;
        ChildStep(deps, n, i);
        r := Visit(deps, r, children[i]);
        CollectedAppend(deps, before, Blocks(children[i]), ChildBlocks(n, i + 1));
        i := i + 1;
      }
      assert ChildBlocks(n, i) == [];
  }

  /** The blocks from child i on are child i's blocks and then those of the later children. */
  lemma ChildStep(deps: map<string, string>, n: Node, i: nat)
    requires n.Other? && i < |n.children| && AllTerminate(deps, ChildBlocks(n, i))
    ensures ChildBlocks(n, i) == Blocks(n.children[i]) + ChildBlocks(n, i + 1)
    ensures AllTerminate(deps, Blocks(n.children[i])) && AllTerminate(deps, ChildBlocks(n, i + 1))
  {
    AllTerminateSplit(deps, Blocks(n.children[i]), ChildBlocks(n, i + 1));
  }

  /** The list of collected languages is built for the whole document. */
  method CollectLanguages(deps: map<string, string>, root: Node) returns (languages: seq<string>)
    requires AllTerminate(deps, Blocks(root))
    ensures languages == DepsPrefix(deps, Blocks(root)) + Blocks(root)
  {
    languages := Visit(deps, [], root);
  }

  /** Each block adds its own info string and its whole chain: nothing is deduplicated. */
  function Weight(deps: map<string, string>, bs: seq<string>): nat
    requires AllTerminate(deps, bs)
  {
    if bs == [] then 0 else 1 + |Chain(deps, bs[0], |deps|)| + Weight(deps, bs[1..])
  }

  lemma {:induction false} CollectedLength(deps: map<string, string>, bs: seq<string>)
    requires AllTerminate(deps, bs)
    ensures |DepsPrefix(deps, bs) + bs| == Weight(deps, bs)
  {
    if bs != [] {
      CollectedLength(deps, bs[1..]);
    }
  }

  /** Every dependency of every block is among the dependencies, all of which precede the blocks. */
  lemma {:induction false} DependencyCollected(deps: map<string, string>, bs: seq<string>, j: nat, d: string)
    requires AllTerminate(deps, bs) && j < |bs| && d in Chain(deps, bs[j], |deps|)
    ensures d in DepsPrefix(deps, bs)
  {
    if j == 0 {
      ReverseHas(Chain(deps, bs[0], |deps|), d);
    } else {
      assert bs[1..][j - 1] == bs[j];
      DependencyCollected(deps, bs[1..], j - 1, d);
    }
  }

  /** The collected list is empty exactly when the document has no fenced code block. */
  lemma CollectedEmpty(deps: map<string, string>, bs: seq<string>)
    requires AllTerminate(deps, bs)
    ensures DepsPrefix(deps, bs) + bs == [] <==> bs == []
  {
    if bs == [] {
      assert DepsPrefix(deps, bs) == [];
    }
  }

  // ---------------------------------------------------------------------
  // The Prism part of the head
  // ---------------------------------------------------------------------

  /** How Java prints a URL that may be null. */
  function UrlText(u: Option<string>): string {
    match u
    case Some(url) => url
    case None => "null"
  }

  function ScriptTag(url: string): string {
    "<script src=\"" + url + "\"></script>\n"
  }

  function ComponentName(language: string): string {
    "prism/components/prism-" + language + ".min.js"
  }

  /** The script of one language, or nothing when it has no component. */
  function LanguageScript(language: string, resource: string -> Option<string>): string {
    match resource(ComponentName(language))
    case Some(url) => ScriptTag(url)
    case None => ""
  }

  /** One script per language in list order. */
  function LanguageScripts(langs: seq<string>, resource: string -> Option<string>): string {
    if langs == [] then "" else LanguageScript(langs[0], resource) + LanguageScripts(langs[1..], resource)
  }

  function PrismHead(resource: string -> Option<string>): string {
    "<link rel=\"stylesheet\" href=\"" + UrlText(resource("prism/prism.css")) + "\">\n"
      + ScriptTag(UrlText(resource("prism/prism-core.min.js")))
  }

  /** What prismSyntaxHighlighting returns for the collected languages. */
  function PrismHtml(langs: seq<string>, resource: string -> Option<string>): string {
    if langs == [] then "" else PrismHead(resource) + LanguageScripts(langs, resource)
  }

  lemma {:induction false} LanguageScriptsAppend(a: seq<string>, b: seq<string>, resource: string -> Option<string>)
    ensures LanguageScripts(a + b, resource) == LanguageScripts(a, resource) + LanguageScripts(b, resource)
  {
    if a == [] {
      assert a + b == b;
    } else {
      assert (a + b)[0] == a[0] && (a + b)[1..] == a[1..] + b;
      LanguageScriptsAppend(a[1..], b, resource);
    }
  }

  lemma LanguageScriptsSnoc(langs: seq<string>, i: nat, resource: string -> Option<string>)
    requires i < |langs|
    ensures LanguageScripts(langs[..i + 1], resource) == LanguageScripts(langs[..i], resource) + LanguageScript(langs[i], resource)
  {
    assert langs[..i + 1] == langs[..i] + [langs[i]];
    assert LanguageScripts([langs[i]], resource) == LanguageScript(langs[i], resource);
    LanguageScriptsAppend(langs[..i], [langs[i]], resource);
  }

  /** No script is emitted for a language without a component. */
  lemma {:induction false} LanguageScriptsNone(langs: seq<string>, resource: string -> Option<string>)
    requires forall k :: 0 <= k < |langs| ==> LanguageScript(langs[k], resource) == ""
    ensures LanguageScripts(langs, resource) == ""
  {
    if langs != [] {
      LanguageScriptsNone(langs[1..], resource);
    }
  }

  /** prismSyntaxHighlighting is empty exactly when there is no fenced code block. */
  lemma PrismHtmlEmpty(deps: map<string, string>, root: Node, resource: string -> Option<string>)
    requires AllTerminate(deps, Blocks(root))
    ensures PrismHtml(DepsPrefix(deps, Blocks(root)) + Blocks(root), resource) == "" <==> Blocks(root) == []
  {
    CollectedEmpty(deps, Blocks(root));
  }

  /**
   * The StringBuilder loop of prismSyntaxHighlighting; the language
   * scripts are gathered apart and appended to the fixed head at the end.
   */
  method BuildPrismHtml(langs: seq<string>, resource: string -> Option<string>) returns (html: string)
    ensures html == PrismHtml(langs, resource)
  {
    if langs == [] {
      return "";
    }
    var scripts := "";
    var i := 0;
    while i < |langs|
      invariant 0 <= i <= |langs|
      invariant scripts == LanguageScripts(langs[..i], resource)
    {
      var url := resource(ComponentName(langs[i]));
      var script := "";
      if url.Some? {
        script := ScriptTag(url.value);
      }
      LanguageScriptsSnoc(langs, i, resource);
      scripts := scripts + script;
      i := i + 1;
    }
    assert langs[..i] == langs;
    html := PrismHead(resource) + scripts;
  }

  // ---------------------------------------------------------------------
  // The document
  // ---------------------------------------------------------------------

  function HighlightNodesAt(range: IndexRange): string {
    "preview.highlightNodesAt(" + IntToString(range.end) + ")"
  }

  /** The base tag, present exactly when the edited file has a path. */
  function BaseTag(parentUri: Option<string>): (r: string)
    ensures r == "" <==> parentUri.None?
  {
    match parentUri
    case Some(uri) => "<base href=\"" + uri + "\">\n"
    case None => ""
  }

  /** The onload attribute, present exactly when a scroll offset is positive. */
  function ScrollScript(x: int, y: int): (r: string)
    ensures r == "" <==> !(x > 0 || y > 0)
  {
    if x > 0 || y > 0 then "  onload='window.scrollTo(" + IntToString(x) + ", " + IntToString(y) + ");'" else ""
  }

  const SelectionRule: string :=
    ".mwfx-editor-selection {\n  border-right: 5px solid #f47806;\n  margin-right: -5px;\n  background-color: rgb(253, 247, 241);\n}\n"

  /** The head, in order: stylesheet, style block, preview.js, Prism part, base tag. */
  function Head(resource: string -> Option<string>, additionalCss: string, prism: string, base: string): string {
    "<head>\n"
      + "<link rel=\"stylesheet\" href=\"" + UrlText(resource("markdownpad-github.css")) + "\">\n"
      + "<style>\n" + additionalCss + "\n" + SelectionRule + "</style>\n"
      + ScriptTag(UrlText(resource("preview.js")))
      + prism
      + base
      + "</head>\n"
  }

  function Body(scrollScript: string, html: string, selection: IndexRange): string {
    "<body" + scrollScript + ">\n" + html + "<script>" + HighlightNodesAt(selection) + "</script>\n" + "</body>\n"
  }

  function Document(head: string, body: string): string {
    "<!DOCTYPE html>\n" + "<html>\n" + head + body + "</html>"
  }

  /**
   * A document as update assembles it, by its parts: the resource lookup
   * and additional CSS of the head, its Prism part and base tag, the body's
   * onload attribute, the rendered HTML and the selection to highlight.
   */
  datatype PageParts = PageParts(resource: string -> Option<string>, additionalCss: string, prism: string,
                                 base: string, scrollScript: string, html: string, selection: IndexRange)

  /** The text handed to loadContent. */
  function PageText(p: PageParts): string {
    Document(Head(p.resource, p.additionalCss, p.prism, p.base), Body(p.scrollScript, p.html, p.selection))
  }

  /** The page update loads for the collected languages and the remembered scroll offsets. */
  function Page(resource: string -> Option<string>, additionalCss: string, langs: seq<string>,
                parentUri: Option<string>, x: int, y: int, html: string, selection: IndexRange): PageParts {
    PageParts(resource, additionalCss, PrismHtml(langs, resource), BaseTag(parentUri), ScrollScript(x, y), html, selection)
  }

  /**
   * The page has a Prism part exactly when a language was collected, a
   * base tag exactly when the file has a parent directory, and an onload
   * scroll exactly when an offset is positive.
   */
  lemma PageOptionalParts(resource: string -> Option<string>, additionalCss: string, langs: seq<string>,
                          parentUri: Option<string>, x: int, y: int, html: string, selection: IndexRange)
    ensures var p := Page(resource, additionalCss, langs, parentUri, x, y, html, selection);
      (p.prism == "" <==> langs == []) && (p.base == "" <==> parentUri.None?) && (p.scrollScript == "" <==> !(x > 0 || y > 0))
  {
  }

  /** The body ends by highlighting the nodes at the selection's end. */
  lemma DocumentEndsWithHighlight(head: string, scrollScript: string, html: string, selection: IndexRange)
    ensures EndsWith(Document(head, Body(scrollScript, html, selection)),
      HighlightNodesAt(selection) + "</script>\n" + "</body>\n" + "</html>")
  {
    var h := HighlightNodesAt(selection);
    var front := "<body" + scrollScript + ">\n" + html + "<script>";
    var body := Body(scrollScript, html, selection);
    EndsWithAppend(front, h);
    EndsWithExtend(front + h, h, "</script>\n");
    EndsWithExtend(front + h + "</script>\n", h + "</script>\n", "</body>\n");
    EndsWithAppend("<!DOCTYPE html>\n" + "<html>\n" + head, body);
    EndsWithTrans("<!DOCTYPE html>\n" + "<html>\n" + head + body, body, h + "</script>\n" + "</body>\n");
    EndsWithExtend("<!DOCTYPE html>\n" + "<html>\n" + head + body, h + "</script>\n" + "</body>\n", "</html>");
  }

  /** The Prism part and the base tag close the head, in that order. */
  lemma HeadEndsWithPrismAndBase(resource: string -> Option<string>, additionalCss: string, prism: string, base: string)
    ensures EndsWith(Head(resource, additionalCss, prism, base), prism + base + "</head>\n")
  {
    var front := "<head>\n"
      + "<link rel=\"stylesheet\" href=\"" + UrlText(resource("markdownpad-github.css")) + "\">\n"
      + "<style>\n" + additionalCss + "\n" + SelectionRule + "</style>\n"
      + ScriptTag(UrlText(resource("preview.js")));
    EndsWithAppend(front, prism);
    EndsWithExtend(front + prism, prism, base);
    EndsWithExtend(front + prism + base, prism + base, "</head>\n");
  }

  /** ((Number) obj).intValue(), or 0 when the script did not give a number. */
  function IntOrZero(value: Option<int>): int {
    match value
    case Some(v) => v
    case None => 0
  }

  // ---------------------------------------------------------------------
  // The preview object
  // ---------------------------------------------------------------------

  class WebViewPreview {
    /** The state of the engine's load worker. */
    var state: LoadState
    /** runWhenLoadedList. */
    var pending: seq<Action>
    /** The scripts run in the page so far, in order. */
    var executed: seq<Action>
    var lastScrollX: int
    var lastScrollY: int
    var lastEditorSelection: Option<IndexRange>
    /** The last document given to loadContent, if any; its text is PageText(loaded.value). */
    var loaded: Option<PageParts>

    constructor ()
      ensures state == Ready && pending == [] && executed == []
      ensures lastScrollX == 0 && lastScrollY == 0 && lastEditorSelection == None && loaded == None
    {
      state := Ready;
      pending := [];
      executed := [];
      lastScrollX := 0;
      lastScrollY := 0;
      lastEditorSelection := None;
      loaded := None;
    }

    /**
     * runWhenLoaded: queue the action while a load is running, otherwise
     * run it now. Either way it is run or queued exactly once; it keeps
     * its place behind every earlier action unless a failed or cancelled
     * load left older actions waiting.
     */
    method RunWhenLoaded(a: Action)
      modifies this
      ensures IsRunning(state) ==> pending == old(pending) + [a] && executed == old(executed)
      ensures !IsRunning(state) ==> executed == old(executed) + [a] && pending == old(pending)
      ensures multiset(executed + pending) == multiset(old(executed + pending)) + multiset{a}
      ensures old(pending) == [] || IsRunning(state) ==> executed + pending == old(executed + pending) + [a]
      ensures state == old(state) && lastEditorSelection == old(lastEditorSelection)
      ensures lastScrollX == old(lastScrollX) && lastScrollY == old(lastScrollY) && loaded == old(loaded)
    {
      if IsRunning(state) {
        pending := pending + [a];
      } else {
        executed := executed + [a];
      }
    }

    /**
     * The load-state listener: on SUCCEEDED with actions waiting, the list
     * is copied and cleared, then each action runs once, in queue order.
     */
    method OnStateChanged(n: LoadState)
      modifies this
      ensures state == n
      ensures n == Succeeded ==> pending == [] && executed == old(executed) + old(pending)
      ensures n != Succeeded ==> pending == old(pending) && executed == old(executed)
      ensures executed + pending == old(executed + pending)
      ensures lastEditorSelection == old(lastEditorSelection)
      ensures lastScrollX == old(lastScrollX) && lastScrollY == old(lastScrollY) && loaded == old(loaded)
    {
      state := n;
      if n == Succeeded && pending != [] {
        var runnables := pending;
        pending := [];
        var i := 0;
        while i < |runnables|
          invariant 0 <= i <= |runnables|
          invariant executed == old(executed) + runnables[..i]
          invariant pending == [] && state == n
          invariant lastEditorSelection == old(lastEditorSelection)
          invariant lastScrollX == old(lastScrollX) && lastScrollY == old(lastScrollY) && loaded == old(loaded)
        {
          executed := executed + [runnables[i]];
          assert runnables[..i + 1] == runnables[..i] + [runnables[i]];
          i := i + 1;
        }
        assert runnables[..i] == runnables;
      }
    }

    method ScrollY(value: real)
      modifies this
      ensures IsRunning(state) ==> pending == old(pending) + [ScrollTo(value)] && executed == old(executed)
      ensures !IsRunning(state) ==> executed == old(executed) + [ScrollTo(value)] && pending == old(pending)
      ensures state == old(state) && lastEditorSelection == old(lastEditorSelection)
      ensures lastScrollX == old(lastScrollX) && lastScrollY == old(lastScrollY) && loaded == old(loaded)
    {
      RunWhenLoaded(ScrollTo(value));
    }

    /**
     * editorSelectionChanged: a range equal to the last one changes nothing;
     * otherwise it is remembered and one highlight is run or queued.
     */
    method EditorSelectionChanged(range: IndexRange)
      modifies this
      ensures old(lastEditorSelection) == Some(range) ==>
        pending == old(pending) && executed == old(executed) && lastEditorSelection == old(lastEditorSelection)
      ensures old(lastEditorSelection) != Some(range) ==>
        lastEditorSelection == Some(range)
        && (IsRunning(state) ==> pending == old(pending) + [HighlightAt(range.end)] && executed == old(executed))
        && (!IsRunning(state) ==> executed == old(executed) + [HighlightAt(range.end)] && pending == old(pending))
      ensures state == old(state)
      ensures lastScrollX == old(lastScrollX) && lastScrollY == old(lastScrollY) && loaded == old(loaded)
    {
      if Some(range) == lastEditorSelection {
        return;
      }
      lastEditorSelection := Some(range);
      RunWhenLoaded(HighlightAt(range.end));
    }

    /** The scroll offsets, read only when no load is running, and the selection are remembered. */
    method RememberView(scrollX: Option<int>, scrollY: Option<int>, selection: IndexRange)
      modifies this
      ensures IsRunning(state) ==> lastScrollX == old(lastScrollX) && lastScrollY == old(lastScrollY)
      ensures !IsRunning(state) ==> lastScrollX == IntOrZero(scrollX) && lastScrollY == IntOrZero(scrollY)
      ensures lastEditorSelection == Some(selection)
      ensures state == old(state) && pending == old(pending) && executed == old(executed) && loaded == old(loaded)
    {
      if !IsRunning(state) {
        lastScrollX := IntOrZero(scrollX);
        lastScrollY := IntOrZero(scrollY);
      }
      lastEditorSelection := Some(selection);
    }

    /** The document for the collected languages is assembled and loaded. */
    method Render(deps: map<string, string>, parentUri: Option<string>, additionalCss: string,
                  root: Node, html: string, selection: IndexRange, resource: string -> Option<string>)
      requires AllTerminate(deps, Blocks(root))
      modifies this`loaded
      ensures loaded == Some(Page(resource, additionalCss, DepsPrefix(deps, Blocks(root)) + Blocks(root),
        parentUri, lastScrollX, lastScrollY, html, selection))
    {
      var languages := CollectLanguages(deps, root);
      LoadPage(languages, parentUri, additionalCss, html, selection, resource);
    }

    /** The string handed to loadContent for the given languages. */
    method LoadPage(languages: seq<string>, parentUri: Option<string>, additionalCss: string,
                    html: string, selection: IndexRange, resource: string -> Option<string>)
      modifies this`loaded
      ensures loaded == Some(Page(resource, additionalCss, languages, parentUri, lastScrollX, lastScrollY, html, selection))
    {
      var base := BaseTag(parentUri);
      var scrollScript := ScrollScript(lastScrollX, lastScrollY);
      var prism := BuildPrismHtml(languages, resource);
      loaded := Some(PageParts(resource, additionalCss, prism, base, scrollScript, html, selection));
    }

    /**
     * update: read the scroll offsets (only when no load is running),
     * remember the selection, load the dependency table if it is still
     * empty and load the assembled document. `scrollX`/`scrollY` are what
     * the page's window.scrollX/scrollY give (None for a non-number),
     * `lines` the lines of the dependency table's resource. A failure of
     * the table loader propagates: the scroll offsets and the selection
     * are then updated but no document is loaded.
     */
    method Update(table: PrismDependencies.LangDependencies, lines: seq<string>,
                  scrollX: Option<int>, scrollY: Option<int>, selection: IndexRange,
                  parentUri: Option<string>, additionalCss: string, root: Node, html: string,
                  resource: string -> Option<string>)
      returns (failure: Option<Failure>)
      requires AllTerminate(InitResult(table.deps, lines).deps, Blocks(root))
      modifies this, table
      ensures IsRunning(state) ==> lastScrollX == old(lastScrollX) && lastScrollY == old(lastScrollY)
      ensures !IsRunning(state) ==> lastScrollX == IntOrZero(scrollX) && lastScrollY == IntOrZero(scrollY)
      ensures lastEditorSelection == Some(selection)
      ensures Loaded(table.deps, failure) == InitResult(old(table.deps), lines)
      ensures failure.Some? ==> loaded == old(loaded)
      ensures failure.None? ==>
        loaded == Some(Page(resource, additionalCss, DepsPrefix(table.deps, Blocks(root)) + Blocks(root),
          parentUri, lastScrollX, lastScrollY, html, selection))
      ensures state == old(state) && pending == old(pending) && executed == old(executed)
    {
      RememberView(scrollX, scrollY, selection);
      failure := table.Init(lines);
      if failure.Some? {
        return;
      }
      Render(table.deps, parentUri, additionalCss, root, html, selection, resource);
    }
  }
}
