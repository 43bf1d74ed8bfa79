/** The text cursor DocumentHandler builds on every query (textCursor) and
    the word selection it widens a caret to before a format merge. Offsets
    run from 0 to the length of the plain text. */
module Cursor {
  import opened Common
  import opened RichText

  /** A cursor: the anchor stays where a selection began, the position moves;
      equal offsets make a caret. */
  datatype TextCursor = TextCursor(anchor: nat, position: nat) {
    predicate HasSelection() {
      anchor != position
    }

    /** The lower end of the selected range. */
    function Start(): nat {
      if anchor <= position then anchor else position
    }

    /** The upper end of the selected range. */
    function End(): nat {
      if anchor <= position then position else anchor
    }
  }

  /** An offset a cursor may stand at in a text of length `len`. */
  predicate InDocument(pos: int, len: nat) {
    0 <= pos <= len
  }

  /** Both ends of the cursor lie in a text of length `len`. */
  predicate Within(c: TextCursor, len: nat) {
    c.anchor <= len && c.position <= len
  }

  /** Move the position to `pos`, dragging the anchor along unless
      `keepAnchor`. An offset outside the document is refused and leaves the
      cursor where it was. */
  function SetPosition(c: TextCursor, pos: int, keepAnchor: bool, len: nat): (r: TextCursor)
    requires Within(c, len)
    ensures Within(r, len)
    ensures InDocument(pos, len) ==> r.position == pos
    ensures InDocument(pos, len) ==> r.anchor == (if keepAnchor then c.anchor else pos)
    ensures !InDocument(pos, len) ==> r == c
  {
    if InDocument(pos, len) then TextCursor(if keepAnchor then c.anchor else pos, pos) else c
  }

  /** The active cursor of the handler: null without a document; otherwise a
      fresh cursor at the document start is moved to the selection when its
      two ends differ, and to the caret position when they do not. */
  function Locate(document: Option<Document>, cursorPosition: int, selectionStart: int, selectionEnd: int)
    : (r: Option<TextCursor>)
    ensures r.Some? <==> document.Some?
    ensures r.Some? ==> Within(r.value, |document.value.content.cells|)
    ensures r.Some? && selectionStart != selectionEnd ==>
      var len := |document.value.content.cells|;
      && r.value.anchor == (if InDocument(selectionStart, len) then selectionStart else 0)
      && r.value.position == (if InDocument(selectionEnd, len) then selectionEnd else r.value.anchor)
    ensures r.Some? && selectionStart == selectionEnd ==>
      var len := |document.value.content.cells|;
      && !r.value.HasSelection()
      && r.value.position == (if InDocument(cursorPosition, len) then cursorPosition else 0)
  {
    match document
    case None => None
    case Some(d) =>
      var len := |d.content.cells|;
      var origin := TextCursor(0, 0);
      if selectionStart != selectionEnd then
        Some(SetPosition(SetPosition(origin, selectionStart, false, len), selectionEnd, true, len))
      else
        Some(SetPosition(origin, cursorPosition, false, len))
  }

  /** With both ends inside the document, the active range is exactly the
      selection when its ends differ and exactly the caret otherwise. */
  lemma LocateInRange(document: Document, cursorPosition: int, selectionStart: int, selectionEnd: int)
    requires InDocument(selectionStart, |document.content.cells|)
    requires InDocument(selectionEnd, |document.content.cells|)
    requires selectionStart != selectionEnd || InDocument(cursorPosition, |document.content.cells|)
    ensures var c := Locate(Some(document), cursorPosition, selectionStart, selectionEnd).value;
      if selectionStart != selectionEnd
      then c.HasSelection() && c.anchor == selectionStart && c.position == selectionEnd
      else !c.HasSelection() && c.position == cursorPosition
  {
  }

  /** Select the word under the cursor position: move to the start of the
      word, then extend to its end. */
  function SelectWord(c: TextCursor, t: string): (r: TextCursor)
    requires Within(c, |t|)
    ensures Within(r, |t|)
    ensures r.anchor <= c.position <= r.position
    ensures forall i :: r.anchor <= i < r.position ==> IsWordChar(t[i])
    ensures r.anchor == 0 || !IsWordChar(t[r.anchor - 1])
    ensures r.position == |t| || !IsWordChar(t[r.position])
  {
    TextCursor(WordStart(t, c.position), WordEnd(t, c.position))
  }

  /** The range a format edit applies to: the selection if there is one,
      otherwise the word under the caret. */
  function WordOrSelection(c: TextCursor, t: string): (r: TextCursor)
    requires Within(c, |t|)
    ensures Within(r, |t|)
    ensures c.HasSelection() ==> r == c
    ensures !c.HasSelection() ==> r == SelectWord(c, t)
  {
    if c.HasSelection() then c else SelectWord(c, t)
  }
}
