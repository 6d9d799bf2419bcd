/**
 * The glue between a file's editor and its preview (FileEditor): which
 * preview the file gets, whether it is a markdown file, its extension,
 * the coalescing of preview-type updates through the "run later" queue,
 * the preview node's place in the split pane, what loading shows for
 * large and binary files, and when a file is reloaded.
 *
 * The JavaFX event queue is the field `tasks`; the file system is the
 * value FileState passed to the operations that read it; the user's
 * answers to the reload alerts are parameters.
 */
module FileEditor {
  import Wrappers
  import opened JavaText
  import HexDump

  /** MarkdownPreviewPane.Type. */
  datatype PreviewType = None | Web | Source | Ast | External

  /** Which preview the tab pane has selected. */
  datatype Selection = Selection(preview: bool, htmlSource: bool, markdownAst: bool, external: bool)

  // ---------------------------------------------------------------------
  // Preview type, markdown detection, extension
  // ---------------------------------------------------------------------

  /**
   * getPreviewType: no preview for a file that is not markdown; otherwise
   * the first selected of Web, Source, Ast and External (the last only
   * when an external preview exists), else None.
   */
  function GetPreviewType(isMarkdown: bool, sel: Selection, hasExternalPreview: bool): PreviewType {
    if !isMarkdown then None
    else if sel.preview then Web
    else if sel.htmlSource then Source
    else if sel.markdownAst then Ast
    else if sel.external && hasExternalPreview then External
    else None
  }

  /** Each preview type, and exactly when it is chosen. */
  lemma GetPreviewTypeCases(isMarkdown: bool, sel: Selection, hasExternalPreview: bool)
    ensures var t := GetPreviewType(isMarkdown, sel, hasExternalPreview);
      && (!isMarkdown ==> t == None)
      && (t == Web <==> isMarkdown && sel.preview)
      && (t == Source <==> isMarkdown && !sel.preview && sel.htmlSource)
      && (t == Ast <==> isMarkdown && !sel.preview && !sel.htmlSource && sel.markdownAst)
      && (t == External <==>
            isMarkdown && !sel.preview && !sel.htmlSource && !sel.markdownAst && sel.external && hasExternalPreview)
  {
  }

  /** The first candidate whose condition holds, or None. */
  function FirstMatch(candidates: seq<(bool, PreviewType)>): (t: PreviewType)
    ensures t != None ==> exists k :: 0 <= k < |candidates| && candidates[k] == (true, t)
  {
    if candidates == [] then None
    else if candidates[0].0 then candidates[0].1
    else FirstMatch(candidates[1..])
  }

  /** getPreviewType is a first-match rule over a fixed priority list. */
  lemma GetPreviewTypeIsFirstMatch(isMarkdown: bool, sel: Selection, hasExternalPreview: bool)
    ensures GetPreviewType(isMarkdown, sel, hasExternalPreview) ==
      if !isMarkdown then None
      else FirstMatch([(sel.preview, Web), (sel.htmlSource, Source), (sel.markdownAst, Ast),
                       (sel.external && hasExternalPreview, External)])
  {
    var c3 := [(sel.external && hasExternalPreview, External)];
    assert c3[1..] == [];
    assert FirstMatch(c3) == if sel.external && hasExternalPreview then External else None;
    var c2 := [(sel.markdownAst, Ast)] + c3;
    assert c2[1..] == c3;
    assert FirstMatch(c2) == if sel.markdownAst then Ast else FirstMatch(c3);
    var c1 := [(sel.htmlSource, Source)] + c2;
    assert c1[1..] == c2;
    assert FirstMatch(c1) == if sel.htmlSource then Source else FirstMatch(c2);
    var c0 := [(sel.preview, Web)] + c1;
    assert c0[1..] == c1;
    assert FirstMatch(c0) == if sel.preview then Web else FirstMatch(c1);
    assert c0 == [(sel.preview, Web), (sel.htmlSource, Source), (sel.markdownAst, Ast),
                  (sel.external && hasExternalPreview, External)];
  }

  /** updateIsMarkdown: a path whose lower-cased text ends with ".md". */
  function IsMarkdownPath(path: Wrappers.Option<string>): bool {
    path.Some? && EndsWith(ToLower(path.value), ".md")
  }

  /** The same test, character by character. */
  lemma IsMarkdownPathChars(p: string)
    ensures IsMarkdownPath(Wrappers.Some(p)) <==>
      |p| >= 3 && p[|p| - 3] == '.' && LowerAscii(p[|p| - 2]) == 'm' && LowerAscii(p[|p| - 1]) == 'd'
  {
    var l := ToLower(p);
    if |p| >= 3 {
      var tail := l[|l| - 3..];
      assert tail[0] == LowerAscii(p[|p| - 3]) && tail[1] == LowerAscii(p[|p| - 2]) && tail[2] == LowerAscii(p[|p| - 1]);
      if tail == ".md" {
        assert LowerAscii(p[|p| - 3]) == '.';
      }
      if p[|p| - 3] == '.' && LowerAscii(p[|p| - 2]) == 'm' && LowerAscii(p[|p| - 1]) == 'd' {
        assert tail == ".md";
      }
    }
  }

  /** getFileExtension: the text after the file name's last '.', or "" without one. */
  function FileExtension(fileName: string): (ext: string)
    ensures '.' !in ext
    ensures '.' !in fileName ==> ext == ""
    ensures '.' in fileName ==> EndsWith(fileName, "." + ext)
  {
    var k := LastIndexOf(fileName, '.');
    if k == -1 then ""
    else
      var ext := fileName[k + 1..];
      assert fileName[|fileName| - |"." + ext|..] == "." + ext;
      ext
  }

  /** A name base.ext with a dot-free ext has the extension ext. */
  lemma FileExtensionOf(base: string, ext: string)
    requires '.' !in ext
    ensures FileExtension(base + "." + ext) == ext
  {
    var name := base + "." + ext;
    var k := LastIndexOf(name, '.');
    assert name[|base|] == '.';
    assert forall j :: |base| < j < |name| ==> name[j] == ext[j - |base| - 1];
    assert k == |base|;
    assert name[k + 1..] == ext;
  }

  // ---------------------------------------------------------------------
  // Loading
  // ---------------------------------------------------------------------

  const MaxFileSize: nat := 500_000
  const MaxHexFileSize: nat := 64 * 1024

  /** What the editor pane shows after a load. */
  datatype Shown =
    | TooLarge(size: nat, max: nat)                  // the "too large" message
    | Binary(size: nat, hex: Wrappers.Option<string>)  // the "binary" message, and the dump appended to it
    | Markdown(text: string)

  datatype LoadResult = LoadResult(shown: Shown, readOnly: bool)

  /**
   * The size/binary branch of load: a file over MAX_FILE_SIZE is not
   * read; a decoded text holding a NUL character is shown as binary, with
   * a hex dump when the file is at most MAX_HEX_FILE_SIZE bytes; anything
   * else is the text. Only the text is editable.
   */
  function LoadDecision(text: string, bytes: seq<HexDump.byte>): (r: LoadResult)
    ensures r.readOnly <==> !r.shown.Markdown?
    ensures r.shown.TooLarge? <==> |bytes| > MaxFileSize
    ensures r.shown.Binary? <==> |bytes| <= MaxFileSize && 0 as char in text
    ensures r.shown.TooLarge? ==> r.shown.size == |bytes| && r.shown.max == MaxFileSize
    ensures r.shown.Binary? ==> r.shown.size == |bytes| && (r.shown.hex.Some? <==> |bytes| <= MaxHexFileSize)
    ensures r.shown.Binary? && r.shown.hex.Some? ==> r.shown.hex.value == HexDump.Dump(bytes)
    ensures r.shown.Markdown? ==> r.shown.text == text
  {
    if |bytes| > MaxFileSize then LoadResult(TooLarge(|bytes|, MaxFileSize), true)
    else if 0 as char in text then
      LoadResult(Binary(|bytes|, if |bytes| <= MaxHexFileSize then Wrappers.Some(HexDump.Dump(bytes)) else Wrappers.None), true)
    else LoadResult(Markdown(text), false)
  }

  /** A dump is only appended for at most 4096 lines. */
  lemma LoadedDumpLines(text: string, bytes: seq<HexDump.byte>)
    requires LoadDecision(text, bytes).shown.Binary? && LoadDecision(text, bytes).shown.hex.Some?
    ensures |HexDump.LinesFrom(bytes, 0)| <= 4096
  {
    HexDump.LinesCount(bytes, 0);
  }

  /**
   * The file on disk as the operations that read it see it. `contents` is
   * None exactly when load() raises an IOException (from Files.size, or
   * from reading a file of at most MAX_FILE_SIZE bytes). A file too large
   * to load has contents whose `bytes` give its size; its text is not read.
   */
  datatype FileContents = FileContents(text: string, bytes: seq<HexDump.byte>)
  datatype FileState = FileState(present: bool, modified: int, contents: Wrappers.Option<FileContents>)

  /** What reload does. */
  datatype ReloadOutcome =
    | Unchanged   // no path, or the time stamp is the one last seen
    | SaveAs      // removed, modified, and the user chose to save it elsewhere
    | Close       // removed: the editor is closed
    | Kept        // changed on disk, modified, and the user declined to reload
    | Reload      // read again

  /**
   * The reload guard: nothing for an unchanged time stamp; a removed file
   * closes the editor unless it was modified and the user chose to save
   * it; a modified file is only read again when the user agrees.
   */
  function ReloadDecision(hasPath: bool, lastModified: int, file: FileState, modified: bool,
                          saveChosen: bool, yesChosen: bool): (r: ReloadOutcome)
    ensures r == Unchanged <==> !hasPath || lastModified == file.modified
    ensures r == SaveAs <==> hasPath && lastModified != file.modified && !file.present && modified && saveChosen
    ensures r == Close <==> hasPath && lastModified != file.modified && !file.present && !(modified && saveChosen)
    ensures r == Kept <==> hasPath && lastModified != file.modified && file.present && modified && !yesChosen
    ensures r == Reload <==> hasPath && lastModified != file.modified && file.present && (!modified || yesChosen)
  {
    if !hasPath || lastModified == file.modified then Unchanged
    else if !file.present then (if modified && saveChosen then SaveAs else Close)
    else if modified && !yesChosen then Kept
    else Reload
  }

  // ---------------------------------------------------------------------
  // The split pane
  // ---------------------------------------------------------------------

  datatype PaneNode = EditorNode | PreviewNode

  /** The number of occurrences of `x` in `s`. */
  function Count<T(==)>(s: seq<T>, x: T): (n: nat)
    ensures n == 0 <==> x !in s
  {
    if s == [] then 0 else (if s[0] == x then 1 else 0) + Count(s[1..], x)
  }

  lemma {:induction false} CountAppend<T>(s: seq<T>, t: seq<T>, x: T)
    ensures Count(s + t, x) == Count(s, x) + Count(t, x)
  {
    if s == [] {
      assert s + t == t;
    } else {
      assert (s + t)[1..] == s[1..] + t;
      CountAppend(s[1..], t, x);
    }
  }

  /** ObservableList.remove(Object): the first occurrence, if any. */
  function RemoveFirst(s: seq<PaneNode>, x: PaneNode): (r: seq<PaneNode>)
    ensures x !in s ==> r == s
    ensures x in s ==> Count(r, x) == Count(s, x) - 1
    ensures forall y :: y != x ==> Count(r, y) == Count(s, y)
  {
    if s == [] then []
    else if s[0] == x then s[1..]
    else
      var r := [s[0]] + RemoveFirst(s[1..], x);
      assert r[1..] == RemoveFirst(s[1..], x);
      r
  }

  /** The preview node occurs at most once. */
  predicate AtMostOnePreview(items: seq<PaneNode>) {
    Count(items, PreviewNode) <= 1
  }

  /** The split items after a preview-type pass. */
  function SplitAfter(items: seq<PaneNode>, t: PreviewType): seq<PaneNode> {
    if t == None then RemoveFirst(items, PreviewNode)
    else if PreviewNode in items then items
    else items + [PreviewNode]
  }

  /**
   * After a pass the preview node is in the split pane exactly when there
   * is a preview, never twice, and the other items are untouched.
   */
  lemma SplitAfterMembership(items: seq<PaneNode>, t: PreviewType)
    requires AtMostOnePreview(items)
    ensures PreviewNode in SplitAfter(items, t) <==> t != None
    ensures AtMostOnePreview(SplitAfter(items, t))
    ensures Count(SplitAfter(items, t), EditorNode) == Count(items, EditorNode)
  {
    if t != None && PreviewNode !in items {
      CountAppend(items, [PreviewNode], PreviewNode);
      CountAppend(items, [PreviewNode], EditorNode);
      assert [PreviewNode][1..] == [];
    }
  }

  // ---------------------------------------------------------------------
  // The editor object
  // ---------------------------------------------------------------------

  /** The runLater tasks this object queues. */
  datatype Task =
    | PreviewTypePass         // the body of updatePreviewType's runLater
    | UpdatePreviewTypeLater  // runLater(() -> updatePreviewType()) after a load
    | PathChanged             // the path listener's runLater
    | CloseEditor             // reload of a removed file

  class FileEditor {
    var path: Wrappers.Option<string>
    var isMarkdown: bool
    /** markdownEditorPane, markdownPreviewPane and splitPane exist (set on first activation). */
    var hasPanes: bool
    var updatePreviewTypePending: bool
    /** The Platform.runLater queue, as far as this object fills it. */
    var tasks: seq<Task>
    var splitItems: seq<PaneNode>
    /** The type last set on the preview pane. */
    var previewType: PreviewType
    var lastModified: int
    /** What the editor pane shows. */
    var shown: Wrappers.Option<LoadResult>
    var closed: bool

    /**
     * The pending flag says exactly whether a pass is queued; at most one
     * pass is ever queued; the preview node is in the split pane at most
     * once.
     */
    ghost predicate Valid()
      reads this
    {
      (updatePreviewTypePending <==> PreviewTypePass in tasks)
      && Count(tasks, PreviewTypePass) <= 1
      && (PreviewTypePass in tasks ==> hasPanes)
      && AtMostOnePreview(splitItems)
    }

    constructor (p: Wrappers.Option<string>)
      ensures Valid()
      ensures path == p && isMarkdown == IsMarkdownPath(p)
      ensures !hasPanes && !updatePreviewTypePending && tasks == [] && splitItems == []
      ensures shown == Wrappers.None && !closed
    {
      path := p;
      isMarkdown := IsMarkdownPath(p);
      hasPanes := false;
      updatePreviewTypePending := false;
      tasks := [];
      splitItems := [];
      previewType := None;
      lastModified := 0;
      shown := Wrappers.None;
      closed := false;
    }

    /**
     * Setting the path: the change listener fires only for a different
     * path, and then refreshes the markdown flag and the preview later.
     */
    method SetPath(p: Wrappers.Option<string>)
      requires Valid()
      modifies this
      ensures Valid()
      ensures path == p
      ensures p == old(path) ==> tasks == old(tasks)
      ensures p != old(path) ==> tasks == old(tasks) + [PathChanged]
      ensures isMarkdown == old(isMarkdown) && hasPanes == old(hasPanes) && splitItems == old(splitItems)
      ensures updatePreviewTypePending == old(updatePreviewTypePending) && shown == old(shown)
      ensures previewType == old(previewType) && lastModified == old(lastModified) && closed == old(closed)
    {
      if p == path {
        return;
      }
      path := p;
      CountAppend(tasks, [PathChanged], PreviewTypePass);
      tasks := tasks + [PathChanged];
    }

    method UpdateIsMarkdown()
      modifies this
      ensures isMarkdown == IsMarkdownPath(path)
      ensures path == old(path) && hasPanes == old(hasPanes) && tasks == old(tasks)
      ensures updatePreviewTypePending == old(updatePreviewTypePending) && splitItems == old(splitItems)
      ensures previewType == old(previewType)
      ensures shown == old(shown) && lastModified == old(lastModified) && closed == old(closed)
    {
      isMarkdown := IsMarkdownPath(path);
    }

    /**
     * updatePreviewType: nothing without a preview pane; while a pass is
     * pending nothing more is queued; otherwise one pass is queued. So
     * any number of calls before the pass runs give exactly one pass.
     */
    method UpdatePreviewType()
      requires Valid()
      modifies this
      ensures Valid()
      ensures !hasPanes || old(updatePreviewTypePending) ==>
        tasks == old(tasks) && updatePreviewTypePending == old(updatePreviewTypePending)
      ensures hasPanes && !old(updatePreviewTypePending) ==>
        updatePreviewTypePending && tasks == old(tasks) + [PreviewTypePass]
      ensures hasPanes ==> updatePreviewTypePending && Count(tasks, PreviewTypePass) == 1
      ensures path == old(path) && isMarkdown == old(isMarkdown) && hasPanes == old(hasPanes)
      ensures splitItems == old(splitItems) && previewType == old(previewType)
      ensures shown == old(shown) && lastModified == old(lastModified) && closed == old(closed)
    {
      if !hasPanes {
        return;
      }
      if updatePreviewTypePending {
        return;
      }
      updatePreviewTypePending := true;
      CountAppend(tasks, [PreviewTypePass], PreviewTypePass);
      assert [PreviewTypePass][1..] == [];
      tasks := tasks + [PreviewTypePass];
    }

    /**
     * The pass itself: the flag is cleared first, then the type is
     * computed and set, and the preview node is added or removed.
     */
    method PreviewPass(sel: Selection, hasExternalPreview: bool)
      requires hasPanes && PreviewTypePass !in tasks && AtMostOnePreview(splitItems)
      modifies this
      ensures Valid()
      ensures !updatePreviewTypePending
      ensures previewType == GetPreviewType(isMarkdown, sel, hasExternalPreview)
      ensures splitItems == SplitAfter(old(splitItems), previewType)
      ensures PreviewNode in splitItems <==> previewType != None
      ensures path == old(path) && isMarkdown == old(isMarkdown) && hasPanes == old(hasPanes) && tasks == old(tasks)
      ensures shown == old(shown) && lastModified == old(lastModified) && closed == old(closed)
    {
      var t := GetPreviewType(isMarkdown, sel, hasExternalPreview);
      var items := SplitAfter(splitItems, t);
      assert AtMostOnePreview(items) && (PreviewNode in items <==> t != None) by {
        SplitAfterMembership(splitItems, t);
      }
      updatePreviewTypePending := false;
      previewType := t;
      splitItems := items;
    }

    /**
     * The event loop runs the oldest task. `sel` and `hasExternalPreview`
     * are the tab pane's state at that moment.
     */
    method RunNextTask(sel: Selection, hasExternalPreview: bool)
      requires Valid() && tasks != []
      modifies this
      ensures Valid()
      ensures old(tasks[0]) == PreviewTypePass ==>
        previewType == GetPreviewType(isMarkdown, sel, hasExternalPreview)
        && (PreviewNode in splitItems <==> previewType != None)
        && !updatePreviewTypePending && tasks == old(tasks[1..])
      ensures old(tasks[0]) == CloseEditor ==> tasks == old(tasks[1..]) && updatePreviewTypePending == old(updatePreviewTypePending)
      ensures old(tasks[0]) == UpdatePreviewTypeLater || old(tasks[0]) == PathChanged ==>
        updatePreviewTypePending == (old(updatePreviewTypePending) || hasPanes)
        && tasks == old(tasks[1..]) + (if hasPanes && !old(updatePreviewTypePending) then [PreviewTypePass] else [])
      ensures old(tasks[0]) == PathChanged ==> isMarkdown == IsMarkdownPath(path)
      ensures old(tasks[0]) != PathChanged ==> isMarkdown == old(isMarkdown)
      ensures old(tasks[0]) != PreviewTypePass ==> splitItems == old(splitItems) && previewType == old(previewType)
      ensures closed == (old(closed) || old(tasks[0]) == CloseEditor)
      ensures path == old(path) && hasPanes == old(hasPanes) && shown == old(shown) && lastModified == old(lastModified)
    {
      var task := tasks[0];
      tasks := tasks[1..];
      assert old(tasks) == [task] + tasks;
      match task
      case PreviewTypePass =>
        PreviewPass(sel, hasExternalPreview);
      case UpdatePreviewTypeLater =>
        UpdatePreviewType();
      case PathChanged =>
        UpdateIsMarkdown();
        UpdatePreviewType();
      case CloseEditor =>
        closed := true;
    }

    /**
     * load: nothing without a path or an editor; the time stamp is taken;
     * on an I/O error (no contents) nothing else changes; otherwise the
     * editor shows the load decision and a preview update is queued.
     */
    method Load(file: FileState)
      requires Valid()
      modifies this
      ensures Valid()
      ensures path.None? || !hasPanes ==> lastModified == old(lastModified) && shown == old(shown) && tasks == old(tasks)
      ensures path.Some? && hasPanes ==> lastModified == file.modified
      ensures path.Some? && hasPanes && file.contents.Some? ==>
        shown == Wrappers.Some(LoadDecision(file.contents.value.text, file.contents.value.bytes))
        && tasks == old(tasks) + [UpdatePreviewTypeLater]
      ensures file.contents.None? ==> shown == old(shown) && tasks == old(tasks)
      ensures path == old(path) && isMarkdown == old(isMarkdown) && hasPanes == old(hasPanes)
      ensures updatePreviewTypePending == old(updatePreviewTypePending) && splitItems == old(splitItems)
      ensures closed == old(closed) && previewType == old(previewType)
    {
      if path.None? || !hasPanes {
        return;
      }
      lastModified := file.modified;
      if file.contents.None? {
        return;
      }
      shown := Wrappers.Some(LoadDecision(file.contents.value.text, file.contents.value.bytes));
      CountAppend(tasks, [UpdatePreviewTypeLater], PreviewTypePass);
      tasks := tasks + [UpdatePreviewTypeLater];
    }

    /**
     * The first activation as written: the editor pane is built from
     * getFileExtension(path), which dereferences the path, so an untitled
     * editor throws a NullPointerException before anything is created;
     * otherwise the panes are created as CreatePanes states.
     */
    method Activate(file: FileState, sel: Selection, hasExternalPreview: bool) returns (thrown: bool)
      requires Valid() && !hasPanes
      modifies this
      ensures thrown <==> path.None?
      ensures thrown ==> unchanged(this)
      ensures !thrown ==> Valid() && hasPanes && updatePreviewTypePending
      ensures !thrown ==>
        splitItems == [EditorNode] +
          (if isMarkdown && GetPreviewType(isMarkdown, sel, hasExternalPreview) != None then [PreviewNode] else [])
      ensures !thrown ==> lastModified == file.modified
      ensures !thrown && file.contents.Some? ==>
        shown == Wrappers.Some(LoadDecision(file.contents.value.text, file.contents.value.bytes))
        && tasks == old(tasks) + [UpdatePreviewTypeLater, PreviewTypePass]
      ensures !thrown && file.contents.None? ==> shown == old(shown) && tasks == old(tasks) + [PreviewTypePass]
      ensures path == old(path) && isMarkdown == old(isMarkdown) && closed == old(closed)
      ensures previewType == old(previewType)
    {
      if path.None? {
        return true;
      }
      CreatePanes(file, sel, hasExternalPreview);
      thrown := false;
    }

    /**
     * The first activation as intended: the panes are created (an untitled
     * editor's pane taking "" as its extension), the file is loaded, the
     * preview node joins the split pane when a preview is due, and a
     * preview-type update follows.
     */
    method CreatePanes(file: FileState, sel: Selection, hasExternalPreview: bool)
      requires Valid() && !hasPanes
      modifies this
      ensures Valid() && hasPanes && updatePreviewTypePending
      ensures splitItems == [EditorNode] +
        (if isMarkdown && GetPreviewType(isMarkdown, sel, hasExternalPreview) != None then [PreviewNode] else [])
      ensures path.Some? ==> lastModified == file.modified
      ensures path.Some? && file.contents.Some? ==>
        shown == Wrappers.Some(LoadDecision(file.contents.value.text, file.contents.value.bytes))
        && tasks == old(tasks) + [UpdatePreviewTypeLater, PreviewTypePass]
      ensures path.None? || file.contents.None? ==> shown == old(shown) && tasks == old(tasks) + [PreviewTypePass]
      ensures path == old(path) && isMarkdown == old(isMarkdown) && closed == old(closed)
      ensures previewType == old(previewType)
    {
      ghost var before := tasks;
      assert !updatePreviewTypePending;
      hasPanes := true;
      Load(file);
      ghost var loaded := tasks;
      splitItems := [EditorNode];
      if isMarkdown && GetPreviewType(isMarkdown, sel, hasExternalPreview) != None {
        splitItems := splitItems + [PreviewNode];
      }
      UpdatePreviewType();
      assert tasks == loaded + [PreviewTypePass];
      if path.Some? && file.contents.Some? {
        assert loaded + [PreviewTypePass] == before + [UpdatePreviewTypeLater, PreviewTypePass];
      }
    }

    /**
     * reload, with the editor's modified flag and the user's answers to
     * the alerts: the time stamp is taken whenever it changed, the file
     * is read again or the editor is closed as the guard decides.
     */
    method ReloadFile(file: FileState, modified: bool, saveChosen: bool, yesChosen: bool)
      returns (outcome: ReloadOutcome)
      requires Valid()
      modifies this
      ensures Valid()
      ensures outcome == ReloadDecision(path.Some?, old(lastModified), file, modified, saveChosen, yesChosen)
      ensures outcome == Unchanged ==> lastModified == old(lastModified) && shown == old(shown) && tasks == old(tasks)
      ensures outcome != Unchanged ==> lastModified == file.modified
      ensures outcome == Close ==> tasks == old(tasks) + [CloseEditor] && shown == old(shown)
      ensures outcome == SaveAs || outcome == Kept ==> tasks == old(tasks) && shown == old(shown)
      ensures outcome == Reload && hasPanes && file.contents.Some? ==>
        shown == Wrappers.Some(LoadDecision(file.contents.value.text, file.contents.value.bytes))
      ensures outcome == Reload ==>
        tasks == old(tasks) + (if hasPanes && file.contents.Some? then [UpdatePreviewTypeLater] else [])
      ensures outcome == Reload && (!hasPanes || file.contents.None?) ==> shown == old(shown)
      ensures path == old(path) && isMarkdown == old(isMarkdown) && hasPanes == old(hasPanes)
      ensures splitItems == old(splitItems) && updatePreviewTypePending == old(updatePreviewTypePending)
      ensures closed == old(closed) && previewType == old(previewType)
    {
      outcome := ReloadDecision(path.Some?, lastModified, file, modified, saveChosen, yesChosen);
      if outcome == Unchanged {
        return;
      }
      lastModified := file.modified;
      if outcome == Close {
        CountAppend(tasks, [CloseEditor], PreviewTypePass);
        tasks := tasks + [CloseEditor];
      } else if outcome == Reload {
        Load(file);
      }
    }
  }

  /**
   * An untitled editor never gets its panes: each selection of its tab
   * throws again, and the editor stays empty.
   */
  method UntitledSelectedTwice(file: FileState, sel: Selection, hasExternalPreview: bool)
    returns (e: FileEditor, first: bool, second: bool)
    ensures first && second
    ensures e.path.None? && !e.hasPanes && e.tasks == [] && e.splitItems == [] && e.shown == Wrappers.None
  {
    e := new FileEditor(Wrappers.None);
    first := e.Activate(file, sel, hasExternalPreview);
    second := e.Activate(file, sel, hasExternalPreview);
  }
}
