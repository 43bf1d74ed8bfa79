/** An abstract rich-text document: the QTextDocument the editor shows,
    reduced to what DocumentHandler reads and writes. The text is a
    sequence of cells (a character plus its character format); paragraphs
    (blocks) are separated by a separator character and carry an alignment;
    every edit is undoable through snapshot stacks. */
module RichText {
  import opened Common

  /** A colour as red, green, blue and alpha components. */
  datatype Color = Rgba(red: int, green: int, blue: int, alpha: int)

  /** The colour of a default brush, which is what an unset foreground shows. */
  const Black: Color := Rgba(0, 0, 0, 255)

  /** Horizontal paragraph alignment. */
  datatype Alignment = AlignLeft | AlignRight | AlignHCenter | AlignJustify

  /** Font weights (the Qt 5 values of QFont::Normal and QFont::Bold). */
  const WeightNormal: int := 50
  const WeightBold: int := 75

  /** A character format: every property is optional, None meaning "not set
      here", exactly as a QTextCharFormat only stores the properties given. */
  datatype CharFormat = CharFormat(
    family: Option<string>,
    pointSize: Option<int>,
    weight: Option<int>,
    italic: Option<bool>,
    underline: Option<bool>,
    foreground: Option<Color>)

  /** The empty format: nothing set. */
  const NoFormat: CharFormat := CharFormat(None, None, None, None, None, None)

  function Override<T>(base: Option<T>, modifier: Option<T>): Option<T> {
    if modifier.Some? then modifier else base
  }

  /** Format merging: each property the modifier sets wins, every other
      property keeps the value it had. */
  function Merge(base: CharFormat, modifier: CharFormat): CharFormat {
    CharFormat(
      Override(base.family, modifier.family),
      Override(base.pointSize, modifier.pointSize),
      Override(base.weight, modifier.weight),
      Override(base.italic, modifier.italic),
      Override(base.underline, modifier.underline),
      Override(base.foreground, modifier.foreground))
  }

  /** Merging keeps every property the modifier leaves unset and takes every
      property it sets: setting one attribute never disturbs its siblings. */
  lemma MergeKeepsSiblings(base: CharFormat, modifier: CharFormat)
    ensures var r := Merge(base, modifier);
      && r.family == (if modifier.family.Some? then modifier.family else base.family)
      && r.pointSize == (if modifier.pointSize.Some? then modifier.pointSize else base.pointSize)
      && r.weight == (if modifier.weight.Some? then modifier.weight else base.weight)
      && r.italic == (if modifier.italic.Some? then modifier.italic else base.italic)
      && r.underline == (if modifier.underline.Some? then modifier.underline else base.underline)
      && r.foreground == (if modifier.foreground.Some? then modifier.foreground else base.foreground)
  {
  }

  /** Merging twice with the same modifier is merging once, and merging the
      empty format changes nothing. */
  lemma MergeIdempotent(base: CharFormat, modifier: CharFormat)
    ensures Merge(Merge(base, modifier), modifier) == Merge(base, modifier)
    ensures Merge(base, NoFormat) == base
  {
  }

  /** The character that ends a block in the plain text. */
  const BlockSeparator: char := '\n'

  /** One character of the document with its format. */
  datatype Cell = Cell(ch: char, format: CharFormat)

  /** The undoable content of a document: its cells, and the alignment set
      explicitly on some blocks (blocks are numbered from 0). */
  datatype Snapshot = Snapshot(cells: seq<Cell>, alignments: map<nat, Alignment>)

  /** A document with its undo and redo stacks (most recent entry last on
      the undo stack, first on the redo stack). */
  datatype Document = Document(content: Snapshot, undoStack: seq<Snapshot>, redoStack: seq<Snapshot>)

  /** The characters of a run of cells. */
  function PlainText(cells: seq<Cell>): (t: string)
    ensures |t| == |cells|
    ensures forall i :: 0 <= i < |cells| ==> t[i] == cells[i].ch
  {
    seq(|cells|, i requires 0 <= i < |cells| => cells[i].ch)
  }

  /** The plain text of a document. */
  function Text(d: Document): string {
    PlainText(d.content.cells)
  }

  /** Replacing the content by `s` as one undoable step. An edit that changes
      nothing leaves the document, stacks included, as it was. */
  function Edit(d: Document, s: Snapshot): (r: Document)
    ensures r.content == s
    ensures s == d.content ==> r == d
    ensures s != d.content ==> r.undoStack == d.undoStack + [d.content] && r.redoStack == []
  {
    if s == d.content then d else Document(s, d.undoStack + [d.content], [])
  }

  /** Undo the most recent step; nothing to undo leaves the document alone. */
  function Undo(d: Document): (r: Document)
    ensures d.undoStack == [] ==> r == d
    ensures d.undoStack != [] ==>
      && r.content == d.undoStack[|d.undoStack| - 1]
      && r.undoStack == d.undoStack[..|d.undoStack| - 1]
      && r.redoStack == [d.content] + d.redoStack
  {
    if d.undoStack == [] then d
    else
      var n := |d.undoStack| - 1;
      Document(d.undoStack[n], d.undoStack[..n], [d.content] + d.redoStack)
  }

  /** Redo the most recently undone step; nothing to redo leaves the
      document alone. */
  function Redo(d: Document): (r: Document)
    ensures d.redoStack == [] ==> r == d
    ensures d.redoStack != [] ==>
      && r.content == d.redoStack[0]
      && r.undoStack == d.undoStack + [d.content]
      && r.redoStack == d.redoStack[1..]
  {
    if d.redoStack == [] then d
    else Document(d.redoStack[0], d.undoStack + [d.content], d.redoStack[1..])
  }

  /** Redo takes back an undo, undo takes back a redo, and undo takes back
      an edit (leaving the edit available for redo). */
  lemma UndoRedoInverse(d: Document, s: Snapshot)
    ensures d.undoStack != [] ==> Redo(Undo(d)) == d
    ensures d.redoStack != [] ==> Undo(Redo(d)) == d
    ensures s != d.content ==> Undo(Edit(d, s)) == d.(redoStack := [s])
  {
  }

  /** Cells `lo` up to (not including) `hi` get `modifier` merged into their
      format; every other cell, and every character, stays as it was. */
  function MergeRange(cells: seq<Cell>, lo: nat, hi: nat, modifier: CharFormat): (r: seq<Cell>)
    requires lo <= hi <= |cells|
    ensures |r| == |cells|
    ensures PlainText(r) == PlainText(cells)
    ensures forall i :: 0 <= i < |cells| && !(lo <= i < hi) ==> r[i] == cells[i]
    ensures forall i :: lo <= i < hi ==> r[i].format == Merge(cells[i].format, modifier)
  {
    var r := seq(|cells|, i requires 0 <= i < |cells| =>
      if lo <= i < hi then Cell(cells[i].ch, Merge(cells[i].format, modifier)) else cells[i]);
    assert PlainText(r) == PlainText(cells);
    r
  }

  /** Offset p starts a block: it is the document start or follows a
      separator. */
  predicate AtBlockStart(t: string, p: nat)
    requires p <= |t|
  {
    p == 0 || t[p - 1] == BlockSeparator
  }

  /** The cell whose format a cursor at offset p reports: the character just
      before p, except at the start of a non-empty block, where it is the
      character just after. None only at the start of a document whose first
      block is empty. */
  function ReadIndex(t: string, p: nat): (r: Option<nat>)
    requires p <= |t|
    ensures r.Some? ==> r.value < |t| && (r.value + 1 == p || r.value == p)
    ensures r.Some? && r.value == p ==> AtBlockStart(t, p) && t[p] != BlockSeparator
    ensures r.Some? && r.value + 1 == p && p < |t| ==> !AtBlockStart(t, p) || t[p] == BlockSeparator
    ensures r.None? <==> p == 0 && (|t| == 0 || t[0] == BlockSeparator)
  {
    if AtBlockStart(t, p) && p < |t| && t[p] != BlockSeparator then Some(p)
    else if p > 0 then Some(p - 1)
    else None
  }

  /** The character format reported at offset p. */
  function FormatAt(cells: seq<Cell>, p: nat): (f: CharFormat)
    requires p <= |cells|
  {
    match ReadIndex(PlainText(cells), p)
    case None => NoFormat
    case Some(i) => cells[i].format
  }

  /** The number of the block containing offset p: the count of separators
      before it. */
  function BlockIndex(t: string, p: nat): (b: nat)
    requires p <= |t|
    ensures b == multiset(t[..p])[BlockSeparator]
    ensures b <= p
  {
    if p == 0 then 0
    else
      assert t[..p] == t[..p - 1] + [t[p - 1]];
      BlockIndex(t, p - 1) + (if t[p - 1] == BlockSeparator then 1 else 0)
  }

  /** Offsets further right never lie in an earlier block. */
  lemma {:induction false} BlockIndexMonotone(t: string, p: nat, q: nat)
    requires p <= q <= |t|
    ensures BlockIndex(t, p) <= BlockIndex(t, q)
    decreases q - p
  {
    if p < q {
      BlockIndexMonotone(t, p, q - 1);
    }
  }

  /** The alignment of block b; a block whose alignment was never set is
      left-aligned. */
  function AlignmentAt(s: Snapshot, b: nat): Alignment {
    if b in s.alignments then s.alignments[b] else AlignLeft
  }

  /** Blocks `first` to `last` (inclusive) get alignment `a`; every other
      block keeps what it had. */
  function SetAlignments(m: map<nat, Alignment>, first: nat, last: nat, a: Alignment): (r: map<nat, Alignment>)
    ensures forall b: nat :: first <= b <= last ==> b in r && r[b] == a
    ensures forall b: nat :: !(first <= b <= last) ==> (b in r <==> b in m)
    ensures forall b: nat :: !(first <= b <= last) && b in m ==> r[b] == m[b]
    decreases last + 1 - first
  {
    if last < first then m else SetAlignments(m[first := a], first + 1, last, a)
  }

  /** Characters that end a word: white space and control characters (the
      block separator among them) and the punctuation marks
      . , ? ! @ # $ : ; - < > [ ] ( ) { } = / + % & ^ * ' " ` ~ | \ */
  predicate IsSeparator(c: char) {
    || c <= ' '
    || '!' <= c <= '/'
    || ':' <= c <= '@'
    || c == '[' || c == '\\' || c == ']' || c == '^' || c == '`'
    || '{' <= c <= '~'
  }

  predicate IsWordChar(c: char) {
    !IsSeparator(c)
  }

  /** The start of the word that ends at or runs through offset p: the
      furthest offset to the left reachable over word characters. */
  function WordStart(t: string, p: nat): (lo: nat)
    requires p <= |t|
    ensures lo <= p
    ensures forall i :: lo <= i < p ==> IsWordChar(t[i])
    ensures lo == 0 || !IsWordChar(t[lo - 1])
    decreases p
  {
    if p == 0 || !IsWordChar(t[p - 1]) then p else WordStart(t, p - 1)
  }

  /** The end of the word that starts at or runs through offset p: the
      furthest offset to the right reachable over word characters. */
  function WordEnd(t: string, p: nat): (hi: nat)
    requires p <= |t|
    ensures p <= hi <= |t|
    ensures forall i :: p <= i < hi ==> IsWordChar(t[i])
    ensures hi == |t| || !IsWordChar(t[hi])
    decreases |t| - p
  {
    if p == |t| || !IsWordChar(t[p]) then p else WordEnd(t, p + 1)
  }
}
