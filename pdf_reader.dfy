/**
  The page navigation of the PDF viewer (components/PDFReader.tsx): the page number, the
  page count, the zoom scale and the loading flag, and the page each handler renders. A
  render yields what the viewer hands to its callbacks: the page text for `onTextExtract`
  and `(num, numPages)` for `onLocationChange`. The zoom scale is counted in quarters, so
  the initial 1.5 is 6 and the bounds 0.5 and 3 are 2 and 12.
*/
module PdfReader {
  import opened Wrappers
  import opened Strings

  /** A loaded document: the text items (`item.str`) of each page, in order. */
  datatype PdfDocument = PdfDocument(pages: seq<seq<string>>)

  datatype ViewerState = ViewerState(pdf: Option<PdfDocument>, pageNum: int, numPages: int, scale: int, isLoading: bool)

  const InitialState := ViewerState(None, 1, 0, 6, true)
  const MinScale := 2
  const MaxScale := 12

  /** What one completed render reports: the page text, the page and page count, and the scale it was drawn at. */
  datatype PageView = PageView(text: string, page: int, total: int, scale: int)

  /** The state after a handler and the render it started, if that render gets as far as the callbacks. */
  datatype Step = Step(next: ViewerState, view: Option<PageView>)

  /** The canvas exists only once the loading indicator is gone. */
  predicate CanvasMounted(s: ViewerState) {
    !s.isLoading
  }

  /**
    `renderPage(pdfDoc, num)` drawing at `scale`: nothing without a document or a canvas,
    nothing when `getPage` rejects a page outside 1..numPages, and otherwise the page's
    items joined with single spaces, reported as page `num` of the document's page count.
  */
  function RenderPage(doc: Option<PdfDocument>, canvasMounted: bool, num: int, scale: int): (r: Option<PageView>)
    ensures r.Some? <==> doc.Some? && canvasMounted && 1 <= num <= |doc.value.pages|
    ensures r.Some? ==>
      && r.value.text == Join(doc.value.pages[num - 1], " ")
      && r.value.page == num && r.value.total == |doc.value.pages| && r.value.scale == scale
  {
    if doc.None? || !canvasMounted then None
    else if !(1 <= num <= |doc.value.pages|) then None
    else Some(PageView(Join(doc.value.pages[num - 1], " "), num, |doc.value.pages|, scale))
  }

  predicate NoSpaces(items: seq<string>) {
    forall i :: 0 <= i < |items| ==> ' ' !in items[i]
  }

  /** The page text keeps the items in order: when no item holds a space, splitting it at spaces gives the items back. */
  lemma RenderedTextKeepsItems(doc: PdfDocument, num: int, scale: int)
    requires 1 <= num <= |doc.pages| && |doc.pages[num - 1]| >= 1
    requires NoSpaces(doc.pages[num - 1])
    ensures RenderPage(Some(doc), true, num, scale).Some?
    ensures Split(RenderPage(Some(doc), true, num, scale).value.text, ' ') == doc.pages[num - 1]
  {
    SplitJoin(doc.pages[num - 1], ' ');
  }

  // ---------------------------------------------------------------------------
  // Loading

  /**
    The loading promise resolving, as written: `renderPage(pdfDoc, pageNum)` runs before
    `setIsLoading(false)` has taken effect, so it sees the canvas as it is while loading.
  */
  function Loaded(s: ViewerState, doc: PdfDocument): Step {
    Step(s.(pdf := Some(doc), numPages := |doc.pages|, isLoading := false),
         RenderPage(Some(doc), CanvasMounted(s), s.pageNum, s.scale))
  }

  /** The document arriving while the loading indicator is up is never drawn nor reported. */
  lemma LoadedRendersNothing(s: ViewerState, doc: PdfDocument)
    requires s.isLoading
    ensures Loaded(s, doc).view.None?
    ensures Loaded(s, doc).next.numPages == |doc.pages| && !Loaded(s, doc).next.isLoading
  {
  }

  /** Opening a one-page document: the viewer shows the page controls but page 1 was never rendered. */
  lemma LoadedFirstPageMissing()
    ensures Loaded(InitialState, PdfDocument([["Titre"]])) ==
      Step(ViewerState(Some(PdfDocument([["Titre"]])), 1, 1, 6, false), None)
  {
  }

  /** The intended load: the first page is rendered once the canvas is there. */
  function LoadedIntended(s: ViewerState, doc: PdfDocument): Step {
    var next := s.(pdf := Some(doc), numPages := |doc.pages|, isLoading := false);
    Step(next, RenderPage(next.pdf, CanvasMounted(next), next.pageNum, next.scale))
  }

  /** On a fresh viewer the intended load renders and reports page 1 of every non-empty document. */
  lemma LoadedIntendedRendersFirstPage(doc: PdfDocument)
    requires |doc.pages| >= 1
    ensures LoadedIntended(InitialState, doc).view.Some?
    ensures LoadedIntended(InitialState, doc).view.value.page == 1
    ensures LoadedIntended(InitialState, doc).view.value.total == |doc.pages|
    ensures PageInRange(LoadedIntended(InitialState, doc).next)
  {
  }

  /** The loading promise rejecting: the indicator goes, nothing else changes. */
  function LoadFailed(s: ViewerState): ViewerState {
    s.(isLoading := false)
  }

  // ---------------------------------------------------------------------------
  // Page stepping, buttons and jumps

  /** The page currently shown is a page of the document. */
  predicate PageInRange(s: ViewerState) {
    1 <= s.pageNum <= s.numPages
  }

  /** `changePage(offset)`: move only when the new page lies in 1..numPages, then render it. */
  function ChangePage(s: ViewerState, offset: int): Step {
    var newPage := s.pageNum + offset;
    if 1 <= newPage <= s.numPages then
      Step(s.(pageNum := newPage), RenderPage(s.pdf, CanvasMounted(s), newPage, s.scale))
    else Step(s, None)
  }

  /** A step moves to `pageNum + offset` exactly when that page exists; otherwise nothing changes and nothing is rendered. */
  lemma ChangePageMovesWithinDocument(s: ViewerState, offset: int)
    ensures var st := ChangePage(s, offset);
      && (1 <= s.pageNum + offset <= s.numPages ==> st.next == s.(pageNum := s.pageNum + offset))
      && (!(1 <= s.pageNum + offset <= s.numPages) ==> st == Step(s, None))
      && st.next.numPages == s.numPages && st.next.scale == s.scale && st.next.pdf == s.pdf
  {
  }

  /** Stepping keeps the shown page inside the document. */
  lemma ChangePagePreservesRange(s: ViewerState, offset: int)
    requires PageInRange(s)
    ensures PageInRange(ChangePage(s, offset).next)
  {
  }

  /** A render started by a step reports the new page and the document's page count. */
  lemma ChangePageReportsLocation(s: ViewerState, offset: int)
    requires s.pdf.Some? && s.numPages == |s.pdf.value.pages| && CanvasMounted(s)
    requires 1 <= s.pageNum + offset <= s.numPages
    ensures ChangePage(s, offset).view.Some?
    ensures ChangePage(s, offset).view.value.page == s.pageNum + offset
    ensures ChangePage(s, offset).view.value.total == s.numPages
  {
  }

  /** `disabled={pageNum <= 1}`. */
  predicate PrevDisabled(s: ViewerState) {
    s.pageNum <= 1
  }

  /** `disabled={pageNum >= numPages}`. */
  predicate NextDisabled(s: ViewerState) {
    s.pageNum >= s.numPages
  }

  /** With the page in range, a button is enabled exactly when pressing it moves the page. */
  lemma ButtonsEnabledIffMove(s: ViewerState)
    requires PageInRange(s)
    ensures !PrevDisabled(s) <==> ChangePage(s, -1).next.pageNum == s.pageNum - 1
    ensures PrevDisabled(s) <==> ChangePage(s, -1).next == s
    ensures !NextDisabled(s) <==> ChangePage(s, 1).next.pageNum == s.pageNum + 1
    ensures NextDisabled(s) <==> ChangePage(s, 1).next == s
  {
  }

  /** `jumpToPage && jumpToPage !== pageNum && pdf`: an absent or zero page is falsy. */
  predicate JumpApplies(s: ViewerState, jumpToPage: Option<int>) {
    jumpToPage.Some? && jumpToPage.value != 0 && jumpToPage.value != s.pageNum && s.pdf.Some?
  }

  /** The `jumpToPage` effect: go to the requested page, without a range check, and render it. */
  function Jump(s: ViewerState, jumpToPage: Option<int>): Step {
    if JumpApplies(s, jumpToPage) then
      Step(s.(pageNum := jumpToPage.value), RenderPage(s.pdf, CanvasMounted(s), jumpToPage.value, s.scale))
    else Step(s, None)
  }

  /** The page changes exactly when the guard holds, and then to the requested page; otherwise nothing happens. */
  lemma JumpGuarded(s: ViewerState, jumpToPage: Option<int>)
    ensures JumpApplies(s, jumpToPage) <==> Jump(s, jumpToPage).next.pageNum != s.pageNum
    ensures JumpApplies(s, jumpToPage) ==> Jump(s, jumpToPage).next == s.(pageNum := jumpToPage.value)
    ensures !JumpApplies(s, jumpToPage) <==> Jump(s, jumpToPage) == Step(s, None)
  {
  }

  /** Because the jump is not range-checked, a saved page beyond the end leaves the viewer outside the document. */
  lemma JumpCanLeaveDocument()
    ensures var s := ViewerState(Some(PdfDocument([[], [], []])), 1, 3, 6, false);
      && PageInRange(s)
      && !PageInRange(Jump(s, Some(5)).next)
      && Jump(s, Some(5)).view.None?
  {
  }

  /** A jump to a page of the document keeps the shown page inside it. */
  lemma JumpInRangeKeepsRange(s: ViewerState, jumpToPage: Option<int>)
    requires PageInRange(s)
    requires jumpToPage.Some? ==> 1 <= jumpToPage.value <= s.numPages
    ensures PageInRange(Jump(s, jumpToPage).next)
  {
  }

  // ---------------------------------------------------------------------------
  // Zoom

  /** `Math.max(0.5, Math.min(3, scale + delta))` in quarters. */
  function ClampScale(v: int): (r: int)
    ensures MinScale <= r <= MaxScale
    ensures MinScale <= v <= MaxScale ==> r == v
    ensures v < MinScale ==> r == MinScale
    ensures v > MaxScale ==> r == MaxScale
  {
    if v > MaxScale then MaxScale else if v < MinScale then MinScale else v
  }

  /**
    `updateZoom(delta)` as written: the scale is clamped and set, but `renderPage` is the
    one from the current render, whose `scale` is still the old value.
  */
  function UpdateZoom(s: ViewerState, delta: int): Step {
    Step(s.(scale := ClampScale(s.scale + delta)),
         if s.pdf.Some? then RenderPage(s.pdf, CanvasMounted(s), s.pageNum, s.scale) else None)
  }

  /** Zooming in once from 1.5 draws the page at 1.5 while the viewer shows 1.75. */
  lemma UpdateZoomRendersStaleScale()
    ensures var s := ViewerState(Some(PdfDocument([["Article"]])), 1, 1, 6, false);
      && UpdateZoom(s, 1).next.scale == 7
      && UpdateZoom(s, 1).view == Some(PageView("Article", 1, 1, 6))
  {
  }

  /** The intended zoom: the page is redrawn at the new scale. */
  function UpdateZoomFixed(s: ViewerState, delta: int): Step {
    var next := s.(scale := ClampScale(s.scale + delta));
    Step(next, if next.pdf.Some? then RenderPage(next.pdf, CanvasMounted(next), next.pageNum, next.scale) else None)
  }

  /** The intended zoom keeps the scale in [0.5, 3], moves it by `delta` when that stays in range, keeps the page, and draws at the new scale. */
  lemma UpdateZoomFixedClamps(s: ViewerState, delta: int)
    ensures var st := UpdateZoomFixed(s, delta);
      && MinScale <= st.next.scale <= MaxScale
      && (MinScale <= s.scale + delta <= MaxScale ==> st.next.scale == s.scale + delta)
      && st.next == s.(scale := st.next.scale)
      && (st.view.Some? ==> st.view.value.scale == st.next.scale && st.view.value.page == s.pageNum)
  {
  }

  /** Zoom changes only the scale, so the page stays in range. */
  lemma UpdateZoomFixedPreservesRange(s: ViewerState, delta: int)
    requires PageInRange(s)
    ensures PageInRange(UpdateZoomFixed(s, delta).next)
  {
  }

  /**
    The viewer's React state. Its handlers follow the intended load and zoom; each returns
    the render it starts.
  */
  class PdfViewer {
    var pdf: Option<PdfDocument>
    var pageNum: int
    var numPages: int
    var scale: int
    var isLoading: bool

    function State(): ViewerState
      reads this
    {
      ViewerState(pdf, pageNum, numPages, scale, isLoading)
    }

    constructor ()
      ensures State() == InitialState
    {
      pdf, pageNum, numPages, scale, isLoading := None, 1, 0, 6, true;
    }

    method OnLoaded(doc: PdfDocument) returns (view: Option<PageView>)
      modifies this
      ensures Step(State(), view) == LoadedIntended(old(State()), doc)
    {
      pdf := Some(doc);
      numPages := |doc.pages|;
      isLoading := false;
      view := RenderPage(pdf, !isLoading, pageNum, scale);
    }

    method OnLoadFailed()
      modifies this
      ensures State() == LoadFailed(old(State()))
    {
      isLoading := false;
    }

    method OnChangePage(offset: int) returns (view: Option<PageView>)
      modifies this
      ensures Step(State(), view) == ChangePage(old(State()), offset)
      ensures old(PageInRange(State())) ==> PageInRange(State())
    {
      var newPage := pageNum + offset;
      view := None;
      if 1 <= newPage && newPage <= numPages {
        pageNum := newPage;
        view := RenderPage(pdf, !isLoading, newPage, scale);
      }
    }

    method OnUpdateZoom(delta: int) returns (view: Option<PageView>)
      modifies this
      ensures Step(State(), view) == UpdateZoomFixed(old(State()), delta)
      ensures MinScale <= scale <= MaxScale
    {
      scale := ClampScale(scale + delta);
      view := None;
      if pdf.Some? {
        view := RenderPage(pdf, !isLoading, pageNum, scale);
      }
    }

    method OnJumpToPage(jumpToPage: Option<int>) returns (view: Option<PageView>)
      modifies this
      ensures Step(State(), view) == Jump(old(State()), jumpToPage)
    {
      view := None;
      if jumpToPage.Some? && jumpToPage.value != 0 && jumpToPage.value != pageNum && pdf.Some? {
        pageNum := jumpToPage.value;
        view := RenderPage(pdf, !isLoading, jumpToPage.value, scale);
      }
    }
  }
}
