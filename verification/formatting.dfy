/** Formatting state: the attribute getters that read the character or
    block format at the active cursor, and the setters that merge a format
    over the selection, or over the word under a caret. */
module Formatting {
  import opened Common
  import opened RichText
  import opened Cursor
  import opened HandlerState

  /** The application font, which an unset family or point size resolves to
      when a character format is turned into a font. */
  datatype Font = Font(family: string, pointSize: int)

  /** The active cursor (textCursor). */
  function ActiveCursor(h: Handler): Option<TextCursor> {
    Locate(h.document, h.cursorPosition, h.selectionStart, h.selectionEnd)
  }

  /** The character format the active cursor reports; None for a null
      cursor. */
  function CursorFormat(h: Handler): (r: Option<CharFormat>)
    ensures r.Some? <==> h.document.Some?
  {
    match ActiveCursor(h)
    case None => None
    case Some(c) => Some(FormatAt(h.document.value.content.cells, c.position))
  }

  /** The font family at the cursor; empty for a null cursor. */
  function FontFamily(h: Handler, app: Font): (r: string)
    ensures h.document.None? ==> r == []
    ensures h.document.Some? && CursorFormat(h).value.family.Some? ==> r == CursorFormat(h).value.family.value
    ensures h.document.Some? && CursorFormat(h).value.family.None? ==> r == app.family
  {
    match CursorFormat(h)
    case None => []
    case Some(f) => f.family.GetOr(app.family)
  }

  /** The text colour at the cursor; black for a null cursor and for an
      unset foreground. */
  function TextColor(h: Handler): (r: Color)
    ensures h.document.None? || CursorFormat(h).value.foreground.None? ==> r == Black
    ensures h.document.Some? && CursorFormat(h).value.foreground.Some? ==> r == CursorFormat(h).value.foreground.value
  {
    match CursorFormat(h)
    case None => Black
    case Some(f) => f.foreground.GetOr(Black)
  }

  /** Whether the character at the cursor is bold (its weight is exactly the
      bold weight; an unset weight is normal); false for a null cursor. */
  function Bold(h: Handler): (r: bool)
    ensures h.document.None? ==> !r
    ensures h.document.Some? ==> (r <==> CursorFormat(h).value.weight == Some(WeightBold))
  {
    match CursorFormat(h)
    case None => false
    case Some(f) => f.weight.GetOr(WeightNormal) == WeightBold
  }

  /** Whether the character at the cursor is italic; false for a null cursor
      and for an unset property. */
  function Italic(h: Handler): (r: bool)
    ensures h.document.None? ==> !r
    ensures h.document.Some? ==> (r <==> CursorFormat(h).value.italic == Some(true))
  {
    match CursorFormat(h)
    case None => false
    case Some(f) => f.italic.GetOr(false)
  }

  /** Whether the character at the cursor is underlined; false for a null
      cursor and for an unset property. */
  function Underline(h: Handler): (r: bool)
    ensures h.document.None? ==> !r
    ensures h.document.Some? ==> (r <==> CursorFormat(h).value.underline == Some(true))
  {
    match CursorFormat(h)
    case None => false
    case Some(f) => f.underline.GetOr(false)
  }

  /** The point size at the cursor; 0 for a null cursor, the application
      font's size for an unset property. */
  function FontSize(h: Handler, app: Font): (r: int)
    ensures h.document.None? ==> r == 0
    ensures h.document.Some? && CursorFormat(h).value.pointSize.Some? ==> r == CursorFormat(h).value.pointSize.value
    ensures h.document.Some? && CursorFormat(h).value.pointSize.None? ==> r == app.pointSize
  {
    match CursorFormat(h)
    case None => 0
    case Some(f) => f.pointSize.GetOr(app.pointSize)
  }

  /** The paragraph alignment of the block holding the cursor position;
      left for a null cursor and for a block whose alignment was never set. */
  function CurrentAlignment(h: Handler): (r: Alignment)
    ensures h.document.None? ==> r == AlignLeft
    ensures h.document.Some? ==>
      var d := h.document.value;
      var b := BlockIndex(Text(d), ActiveCursor(h).value.position);
      r == if b in d.content.alignments then d.content.alignments[b] else AlignLeft
  {
    match ActiveCursor(h)
    case None => AlignLeft
    case Some(c) =>
      var d := h.document.value;
      AlignmentAt(d.content, BlockIndex(Text(d), c.position))
  }

  /** Without a document every attribute reads its fixed default. */
  lemma NullCursorDefaults(h: Handler, app: Font)
    requires h.document.None?
    ensures FontFamily(h, app) == [] && TextColor(h) == Black && CurrentAlignment(h) == AlignLeft
    ensures !Bold(h) && !Italic(h) && !Underline(h) && FontSize(h, app) == 0
  {
  }

  /** The range a character-format edit applies to: the selection, or the
      word under a caret; None for a null cursor. */
  function Target(h: Handler): (r: Option<TextCursor>)
    ensures r.Some? <==> h.document.Some?
    ensures r.Some? ==> Within(r.value, |h.document.value.content.cells|)
  {
    match ActiveCursor(h)
    case None => None
    case Some(c) => Some(WordOrSelection(c, Text(h.document.value)))
  }

  /** `after` is `before` with `modifier` merged into exactly the cells
      `lo` up to `hi`: characters, alignments and every other cell are
      untouched. */
  predicate MergedOn(before: Document, after: Document, lo: nat, hi: nat, modifier: CharFormat) {
    && |after.content.cells| == |before.content.cells|
    && after.content.alignments == before.content.alignments
    && (forall i :: 0 <= i < |before.content.cells| ==>
          after.content.cells[i].ch == before.content.cells[i].ch)
    && (forall i :: 0 <= i < |before.content.cells| && !(lo <= i < hi) ==>
          after.content.cells[i] == before.content.cells[i])
    && (forall i :: 0 <= i < |before.content.cells| && lo <= i < hi ==>
          after.content.cells[i].format == Merge(before.content.cells[i].format, modifier))
  }

  /** `h'` is `h` after merging `modifier` over the word or selection as one
      undoable edit; a null cursor changes nothing. */
  predicate FormatApplied(h: Handler, h': Handler, modifier: CharFormat) {
    && h' == h.(document := h'.document)
    && (h.document.None? ==> h' == h)
    && (h.document.Some? ==>
          && h'.document.Some?
          && MergedOn(h.document.value, h'.document.value, Target(h).value.Start(), Target(h).value.End(), modifier)
          && h'.document.value == Edit(h.document.value, h'.document.value.content))
  }

  /** mergeFormatOnWordOrSelection: widen a caret to the word under it, then
      merge the format over the range. A null cursor, or a caret outside any
      word, leaves the document untouched. */
  function MergeOnWordOrSelection(h: Handler, modifier: CharFormat): (r: Handler)
    ensures FormatApplied(h, r, modifier)
  {
    match Target(h)
    case None => h
    case Some(w) =>
      var d := h.document.value;
      if !w.HasSelection() then h
      else
        var cells := MergeRange(d.content.cells, w.Start(), w.End(), modifier);
        h.(document := Some(Edit(d, d.content.(cells := cells))))
  }

  /** The format setters: each merges a format with only its own property
      set, and always announces the change, even without a document. */
  function SetFontFamily(h: Handler, family: string): (s: Step)
    ensures s.events == [Local(FontFamilyChanged)]
    ensures FormatApplied(h, s.next, NoFormat.(family := Some(family)))
  {
    Step(MergeOnWordOrSelection(h, NoFormat.(family := Some(family))), [Local(FontFamilyChanged)])
  }

  function SetTextColor(h: Handler, color: Color): (s: Step)
    ensures s.events == [Local(TextColorChanged)]
    ensures FormatApplied(h, s.next, NoFormat.(foreground := Some(color)))
  {
    Step(MergeOnWordOrSelection(h, NoFormat.(foreground := Some(color))), [Local(TextColorChanged)])
  }

  function SetBold(h: Handler, bold: bool): (s: Step)
    ensures s.events == [Local(BoldChanged)]
    ensures FormatApplied(h, s.next, NoFormat.(weight := Some(if bold then WeightBold else WeightNormal)))
  {
    var weight := if bold then WeightBold else WeightNormal;
    Step(MergeOnWordOrSelection(h, NoFormat.(weight := Some(weight))), [Local(BoldChanged)])
  }

  function SetItalic(h: Handler, italic: bool): (s: Step)
    ensures s.events == [Local(ItalicChanged)]
    ensures FormatApplied(h, s.next, NoFormat.(italic := Some(italic)))
  {
    Step(MergeOnWordOrSelection(h, NoFormat.(italic := Some(italic))), [Local(ItalicChanged)])
  }

  function SetUnderline(h: Handler, underline: bool): (s: Step)
    ensures s.events == [Local(UnderlineChanged)]
    ensures FormatApplied(h, s.next, NoFormat.(underline := Some(underline)))
  {
    Step(MergeOnWordOrSelection(h, NoFormat.(underline := Some(underline))), [Local(UnderlineChanged)])
  }

  /** Set the alignment of every block the active cursor touches (a caret
      touches its own block; there is no word widening), and always announce
      the change, even without a document. */
  function SetAlignment(h: Handler, a: Alignment): (s: Step)
    ensures s.events == [Local(AlignmentChanged)]
    ensures s.next == h.(document := s.next.document)
    ensures h.document.None? ==> s.next == h
    ensures h.document.Some? ==>
      var d := h.document.value;
      var c := ActiveCursor(h).value;
      var first, last := BlockIndex(Text(d), c.Start()), BlockIndex(Text(d), c.End());
      && s.next.document.Some?
      && s.next.document.value == Edit(d, s.next.document.value.content)
      && s.next.document.value.content.cells == d.content.cells
      && (forall b: nat :: AlignmentAt(s.next.document.value.content, b) ==
            if first <= b <= last then a else AlignmentAt(d.content, b))
  {
    match ActiveCursor(h)
    case None => Step(h, [Local(AlignmentChanged)])
    case Some(c) =>
      var d := h.document.value;
      var t := Text(d);
      var alignments := SetAlignments(d.content.alignments, BlockIndex(t, c.Start()), BlockIndex(t, c.End()), a);
      Step(h.(document := Some(Edit(d, d.content.(alignments := alignments)))), [Local(AlignmentChanged)])
  }

  /** The point-size property as an integer; an unset property reads 0. */
  function PointSizeProperty(f: CharFormat): int {
    f.pointSize.GetOr(0)
  }

  /** setFontSize: nothing happens, and nothing is announced, for a size that
      is not positive, for a null cursor, or when the character the widened
      cursor reports already has that point size. Otherwise a format with
      only the point size set is merged over the word or selection and the
      change is announced. */
  function SetFontSize(h: Handler, size: int): (s: Step)
    ensures size <= 0 || h.document.None? ==> s == Step(h, [])
    ensures size > 0 && h.document.Some? ==>
      var w := Target(h).value;
      var reported := FormatAt(h.document.value.content.cells, w.position);
      if reported.pointSize == Some(size) then s == Step(h, [])
      else
        && s.events == [Local(FontSizeChanged)]
        && FormatApplied(h, s.next, NoFormat.(pointSize := Some(size)))
  {
    if size <= 0 then Step(h, [])
    else
      match Target(h)
      case None => Step(h, [])
      case Some(w) =>
        if PointSizeProperty(FormatAt(h.document.value.content.cells, w.position)) == size then Step(h, [])
        else Step(MergeOnWordOrSelection(h, NoFormat.(pointSize := Some(size))), [Local(FontSizeChanged)])
  }

  /** setBold changes only the weight: family, size, italic, underline and
      colour of every cell stay as they were. */
  lemma SetBoldKeepsSiblings(h: Handler, bold: bool)
    requires h.document.Some?
    ensures var cells, cells' := h.document.value.content.cells, SetBold(h, bold).next.document.value.content.cells;
      && |cells'| == |cells|
      && forall i :: 0 <= i < |cells| ==>
           cells'[i].format == cells[i].format.(weight := cells'[i].format.weight)
  {
  }

  /** The getters read a cell that the setters' merge covers: the cell the
      active cursor reports lies inside the word or selection. */
  predicate ReadsTarget(h: Handler) {
    && h.document.Some?
    && var c := ActiveCursor(h).value;
       var w := Target(h).value;
       var i := ReadIndex(Text(h.document.value), c.position);
       i.Some? && w.Start() <= i.value < w.End()
  }

  /** A caret just after a word character reads inside the word it widens
      to. */
  lemma CaretInWordReadsTarget(h: Handler)
    requires h.document.Some? && h.selectionStart == h.selectionEnd
    requires 0 < h.cursorPosition <= |h.document.value.content.cells|
    requires IsWordChar(Text(h.document.value)[h.cursorPosition - 1])
    ensures ReadsTarget(h)
  {
  }

  /** A forward selection whose last character is not a block separator
      reads inside the selection. */
  lemma ForwardSelectionReadsTarget(h: Handler)
    requires h.document.Some?
    requires 0 <= h.selectionStart < h.selectionEnd <= |h.document.value.content.cells|
    requires Text(h.document.value)[h.selectionEnd - 1] != BlockSeparator
    ensures ReadsTarget(h)
  {
  }

  /** After a merge over a range the getters read inside, the cursor
      reports the old format with the modifier merged in. */
  lemma MergeReadBack(h: Handler, modifier: CharFormat)
    requires ReadsTarget(h)
    ensures CursorFormat(MergeOnWordOrSelection(h, modifier)) == Some(Merge(CursorFormat(h).value, modifier))
  {
  }

  /** Setting an attribute and reading it back gives the value set, when the
      cursor reads inside the range the setter formats. */
  lemma SettersReadBack(h: Handler, app: Font, family: string, color: Color, flag: bool)
    requires ReadsTarget(h)
    ensures FontFamily(SetFontFamily(h, family).next, app) == family
    ensures TextColor(SetTextColor(h, color).next) == color
    ensures Bold(SetBold(h, flag).next) == flag
    ensures Italic(SetItalic(h, flag).next) == flag
    ensures Underline(SetUnderline(h, flag).next) == flag
  {
    MergeReadBack(h, NoFormat.(family := Some(family)));
    MergeReadBack(h, NoFormat.(foreground := Some(color)));
    MergeReadBack(h, NoFormat.(weight := Some(if flag then WeightBold else WeightNormal)));
    MergeReadBack(h, NoFormat.(italic := Some(flag)));
    MergeReadBack(h, NoFormat.(underline := Some(flag)));
  }

  /** A positive point size reads back after setFontSize unless the call was
      a no-op because the character the widened cursor reports already had
      that size. */
  lemma FontSizeReadBack(h: Handler, app: Font, size: int)
    requires ReadsTarget(h) && size > 0
    ensures var s := SetFontSize(h, size);
      FontSize(s.next, app) == size
      || (s == Step(h, []) && FormatAt(h.document.value.content.cells, Target(h).value.position).pointSize == Some(size))
  {
    MergeReadBack(h, NoFormat.(pointSize := Some(size)));
  }

  /** The alignment set is the alignment read, whatever the cursor. */
  lemma AlignmentReadBack(h: Handler, a: Alignment)
    requires h.document.Some?
    ensures CurrentAlignment(SetAlignment(h, a).next) == a
  {
    var c := ActiveCursor(h).value;
    var t := Text(h.document.value);
    BlockIndexMonotone(t, c.Start(), c.position);
    BlockIndexMonotone(t, c.position, c.End());
    var h' := SetAlignment(h, a).next;
    assert ActiveCursor(h') == ActiveCursor(h);
    assert Text(h'.document.value) == t;
  }
}
