# DocumentHandler: shared-text sync and formatting state, in Dafny

This project models the decision logic of `DocumentHandler`, the object behind a
small Qt rich-text editor whose processes share one text over the D-Bus session
bus. Qt and D-Bus are stripped away. Every operation is a pure function from a
`Handler` state to a `Step`: the next state plus the ordered events it emitted.
An event is either a local change notification (a Qt signal to the QML user
interface) or a message sent on the bus, tagged with the interface name
`"org.example." + session`.

The model has four parts:

- **Session resolution** (`Session`). The launch arguments pick `"detached"`,
  an explicit channel, or the default `"allusers"`.
- **Text synchronisation** (`TextSync`, `Bus`). The handler joins the bus at
  construction and pulls the current text. It publishes local edits
  (`setmyText`) and adopts inbound text without re-sending it
  (`onMyTextChanged`). It broadcasts undo/redo requests (`undo`/`redo`) and
  applies received ones to its own document (`onUndo`/`onRedo`). `Bus.Deliver`
  routes a message only to handlers subscribed to its interface.
- **Active range** (`Cursor`). `textCursor` uses the selection when its ends
  differ and a caret otherwise. A format edit widens a caret to the word under
  it.
- **Formatting accessors** (`Formatting`). The attribute getters have fixed
  defaults when there is no document. The setters merge a single-property
  format over the word or selection. `setFontSize` has three no-op rules.

The document is abstract (`RichText`): a sequence of cells, each a character
with an optional-field character format, plus a map from block number to
alignment. Undo and redo are snapshot stacks. Blocks are separated by `'\n'`.

Behaviour of the code worth knowing:

- The join-time pull adopts the reply through `setmyText`
  (documenthandler.cpp:55), so a non-empty pulled text is broadcast again.
- `undo()`/`redo()` send their request even in detached mode
  (documenthandler.cpp:101-111). `Bus.DetachedIsolation` proves this is
  harmless: no well-formed handler listens on `org.example.detached`.
- `--channel detached` also yields the detached session
  (`Session.DetachedExactly`).
- `setFontSize` compares against the character before the *end* of the widened
  range. The size getter reads the character before the caret
  (`Scenarios.SizeCheckReadsWordEnd`).

Qt behaviour the source relies on is modelled explicitly:

- `QTextCursor::setPosition` ignores an offset outside `0..length`. The
  initial caret offset of -1 therefore leaves the cursor at 0.
- `charFormat()` reports the character before the cursor position. At the
  start of a non-empty block it reports the character after.
- Unset properties read as: weight normal (50), italic/underline false,
  foreground black, alignment left. Family and point size come from the
  application font, a `Formatting.Font` parameter.
- `setFontSize` compares the raw point-size property, which reads 0 when unset.

## Model

| member | source | states |
|---|---|---|
| Session.ResolveSession | documenthandler.cpp:20-28 | Exactly two arguments with `--detached` second give "detached". `--channel` second, followed by at least one more token, gives that token verbatim. Anything else gives "allusers". |
| Session.DetachedExactly | documenthandler.cpp:24-28 | The session is "detached" iff private mode was asked for or the named channel is literally "detached". |
| Session.MalformedListsGetDefault | documenthandler.cpp:20-28 | `[p, "--channel"]`, `[p, "--detached", x]` and `[p]` all fall through to "allusers". |
| Session.ChannelOf | documenthandler.cpp:46-48 | The interface name is the prefix "org.example." followed by the session, and the session can be read back from it. |
| Session.ChannelOfInjective | documenthandler.cpp:46-48 | Two sessions share an interface name only if they are equal. |
| HandlerState.Initial | documenthandler.cpp:14-20 | A new handler has no document, caret -1, selection 0..0, empty text, and is off the bus. |
| HandlerState.SetDocument | documenthandler.cpp:129-136 | Setting the document always notifies, even when the document is unchanged. |
| HandlerState.SetCursorPosition | documenthandler.cpp:143-151 | An unchanged caret is silent. A new one emits the seven stale-attribute notifications of `reset` and then the caret notification. It never sends on the bus. |
| HandlerState.SetSelectionStart | documenthandler.cpp:158-165 | Stores the offset and notifies only when it changes. |
| HandlerState.SetSelectionEnd | documenthandler.cpp:172-179 | Stores the offset and notifies only when it changes. |
| HandlerState.CursorSettersIdempotent | documenthandler.cpp:143-179 | Setting the same offset a second time changes nothing and emits nothing. |
| TextSync.SetMyText | documenthandler.cpp:80-91 | Equal text is a no-op. New text is adopted and announced locally first. It is then sent exactly once on the session channel, unless the session is detached. |
| TextSync.SetMyTextAtMostOnce | documenthandler.cpp:80-91 | Publishing the same text twice sends at most one message; the second call is silent. |
| TextSync.OnMyTextChanged | documenthandler.cpp:93-99 | Inbound text never goes back on the bus. Equal text is a no-op. New text is adopted and announced once. |
| TextSync.OnMyTextChangedIdempotent | documenthandler.cpp:93-99 | Applying the same inbound text twice is applying it once. |
| TextSync.RequestUndo | documenthandler.cpp:101-105 | Sends one payload-less undo request on the session channel, detached or not, and changes nothing locally. |
| TextSync.RequestRedo | documenthandler.cpp:107-111 | Sends one payload-less redo request on the session channel, detached or not, and changes nothing locally. |
| TextSync.OnUndo | documenthandler.cpp:113-119 | Without a document: nothing. With one: the document undoes, its plain text is announced, the shared text is kept, nothing is sent. |
| TextSync.OnRedo | documenthandler.cpp:121-127 | Same as OnUndo, for redo. |
| TextSync.OnUndoThenOnRedo | documenthandler.cpp:113-127 | A received undo followed by a received redo restores the handler whenever the document had a step to undo. |
| TextSync.StartDBus | documenthandler.cpp:33-63 | Detached or unconnected: no change and no events. Otherwise: subscribed, owns the service iff the name was free. A valid pull reply becomes the text; when it differs it is announced locally once and re-broadcast once, otherwise nothing is emitted. |
| TextSync.Create | documenthandler.cpp:14-31 | The session comes from the arguments. A detached or unconnected process starts empty, silent and off the bus. A connected process whose pull fails starts empty and silent. A pulled text is adopted: an empty reply, the first process of a session, starts empty and silent; a non-empty one is announced locally once and broadcast again. |
| RichText.MergeKeepsSiblings | documenthandler.cpp:422 | A format merge takes every property the modifier sets and keeps every property it leaves unset. |
| RichText.MergeIdempotent | documenthandler.cpp:422 | Merging twice with the same modifier equals merging once; merging the empty format changes nothing. |
| RichText.Edit | documenthandler.cpp:422 | A document edit that changes the content is one undoable step and clears the redo stack; an edit that changes nothing leaves the document as it was. |
| RichText.Undo | documenthandler.cpp:116 | The document undo restores the last snapshot and moves the current one to the redo stack; with nothing to undo it does nothing. |
| RichText.Redo | documenthandler.cpp:124 | The document redo reapplies the last undone snapshot; with nothing to redo it does nothing. |
| RichText.UndoRedoInverse | documenthandler.cpp:113-127 | Redo takes back undo, undo takes back redo, and undo takes back an edit. |
| RichText.MergeRange | documenthandler.cpp:422 | Merging over a range changes only the formats of the cells in the range, each to the merge with the modifier; the characters stay the same. |
| RichText.ReadIndex | documenthandler.cpp:186 | The cell a cursor reports is the one just before it, or the one just after at the start of a non-empty block. It is absent only at the start of an empty first block. |
| RichText.BlockIndex | documenthandler.cpp:220 | A position's block number is the number of separators before it, so it never exceeds the offset. |
| RichText.BlockIndexMonotone | documenthandler.cpp:220-228 | Positions further right never lie in an earlier block. |
| RichText.SetAlignments | documenthandler.cpp:228 | Every block in the range gets the new alignment; every other block keeps its own. |
| RichText.WordStart | documenthandler.cpp:299 | A word's start is the leftmost offset reachable over word characters, so a separator or the text start lies before it. |
| RichText.WordEnd | documenthandler.cpp:421 | A word's end is the rightmost offset reachable over word characters, so a separator or the text end lies after it. |
| Cursor.SetPosition | documenthandler.cpp:401-404 | An in-range offset moves the position, and moves the anchor too unless it is kept. An out-of-range offset leaves the cursor unchanged. |
| Cursor.Locate | documenthandler.cpp:393-407 | Null iff there is no document. Differing selection ends give the selection (ends out of range are ignored). Equal ends give a caret at the caret offset, or at 0 when that offset is out of range. |
| Cursor.LocateInRange | documenthandler.cpp:400-405 | With in-range offsets the active range is exactly [selectionStart, selectionEnd] when they differ, and the caret at cursorPosition otherwise. |
| Cursor.SelectWord | documenthandler.cpp:298-299 | Widening a caret covers the maximal run of word characters around it. |
| Cursor.WordOrSelection | documenthandler.cpp:420-421 | A selection is kept as is; a caret is widened to its word. |
| Formatting.CursorFormat | documenthandler.cpp:183-186 | A character format is reported exactly when a document exists. |
| Formatting.FontFamily | documenthandler.cpp:181-188 | Empty without a document. Otherwise the family at the cursor, or the application family when unset. |
| Formatting.TextColor | documenthandler.cpp:198-205 | Black without a document or for an unset foreground; otherwise the foreground colour at the cursor. |
| Formatting.CurrentAlignment | documenthandler.cpp:215-221 | Left without a document. Otherwise the alignment of the cursor's block, left when never set. |
| Formatting.Bold | documenthandler.cpp:232-238 | False without a document; otherwise true iff the weight at the cursor is exactly the bold weight. |
| Formatting.Italic | documenthandler.cpp:248-254 | False without a document or when unset; otherwise the italic flag at the cursor. |
| Formatting.Underline | documenthandler.cpp:264-270 | False without a document or when unset; otherwise the underline flag at the cursor. |
| Formatting.FontSize | documenthandler.cpp:280-287 | 0 without a document. Otherwise the point size at the cursor, or the application size when unset. |
| Formatting.NullCursorDefaults | documenthandler.cpp:181-287 | Without a document every getter returns its fixed default: "", black, left, false, false, false, 0. |
| Formatting.Target | documenthandler.cpp:417-421 | The edit range exists iff a document exists and lies inside the document. |
| Formatting.MergeOnWordOrSelection | documenthandler.cpp:417-423 | The format is merged over exactly the selection, or the word under a caret, as one undoable edit. Characters, alignments and other cells are untouched. A null cursor, or a caret outside any word, changes nothing. |
| Formatting.SetFontFamily | documenthandler.cpp:190-196 | Merges a format with only the family set over the word or selection. Always notifies, even without a document. |
| Formatting.SetTextColor | documenthandler.cpp:207-213 | Merges a format with only the foreground set over the word or selection. Always notifies. |
| Formatting.SetAlignment | documenthandler.cpp:223-230 | Every block the cursor touches gets the alignment, with no word widening. Characters and other blocks are untouched. Always notifies. |
| Formatting.SetBold | documenthandler.cpp:240-246 | Merges only the weight (bold or normal) over the word or selection. Always notifies. |
| Formatting.SetBoldKeepsSiblings | documenthandler.cpp:240-246 | setBold changes no cell's family, size, italic, underline or colour; only weights change. |
| Formatting.SetItalic | documenthandler.cpp:256-262 | Merges only the italic flag over the word or selection. Always notifies. |
| Formatting.SetUnderline | documenthandler.cpp:272-278 | Merges only the underline flag over the word or selection. Always notifies. |
| Formatting.SetFontSize | documenthandler.cpp:289-308 | Silent no-op if the size is not positive, if there is no document, or if the character the widened cursor reports already has that size. Otherwise merges only the point size over the word or selection and notifies once. |
| Formatting.CaretInWordReadsTarget | documenthandler.cpp:417-421 | A caret just after a word character reads a cell inside the word it widens to. |
| Formatting.ForwardSelectionReadsTarget | documenthandler.cpp:400-402 | A forward selection whose last character is not a separator reads a cell inside the selection. |
| Formatting.MergeReadBack | documenthandler.cpp:417-423 | When the cursor reads inside the edit range, after a merge it reports the old format merged with the modifier. |
| Formatting.SettersReadBack | documenthandler.cpp:190-278 | Setting family, colour, bold, italic or underline and then reading it back gives the value set (cursor reading inside the edit range). |
| Formatting.FontSizeReadBack | documenthandler.cpp:289-307 | A positive size reads back after setFontSize, unless the call was the equal-size no-op. |
| Formatting.AlignmentReadBack | documenthandler.cpp:215-230 | With a document, the alignment set is the alignment read. |
| Bus.Deliver | documenthandler.cpp:46-48 | Only a handler subscribed to the message's interface reacts. For such a handler, text is exactly onMyTextChanged, an undo request exactly onUndo and a redo request exactly onRedo. A delivery never sends anything. |
| Bus.ApplyKeepsMembership | documenthandler.h:131-140 | No operation changes the session, the subscription or the service ownership, so well-formedness is kept. |
| Bus.OnlyRequestsPublish | documenthandler.cpp:80-111 | Only setmyText, undo and redo send anything, and always on the sender's own session channel. |
| Bus.ChannelIsolation | documenthandler.cpp:46-48 | A message on another session's channel never changes a handler or makes it emit. |
| Bus.DetachedIsolation | documenthandler.cpp:101-111 | A detached handler never publishes text, and its undo/redo requests reach no well-formed handler. |
| Bus.NoEcho | documenthandler.cpp:80-99 | New text from a subscribed publisher goes out once. A same-session peer adopts it, announces it at most once and sends nothing. The publisher ignores its own echo. |
| Scenarios.JoinPullsCurrentText | documenthandler.cpp:43-55 | On "team1", a late joiner pulls "abc" from the name owner and broadcasts it again. The owner ignores that broadcast. |
| Scenarios.UndoReachesEveryPeer | documenthandler.cpp:101-119 | An undo request reaches every subscribed peer, requester included. Each undoes its own document and keeps its shared text. |
| Scenarios.CaretWidensToWord | documenthandler.cpp:240-246 | With the caret inside "world" of "hello world", setBold(true) bolds exactly offsets 6..10, leaves "hello " untouched, and bold reads back true. |
| Scenarios.BackslashEndsWord | documenthandler.cpp:420-421 | Under the model's word rule the backslash is a separator: with the caret after 'a' in `a\b`, the widened range is 'a' alone and setting bold changes only 'a'. Qt selects the backslash in this position (see `Cursor.SelectWord` under "## Left out"). |
| Scenarios.SizeCheckReadsWordEnd | documenthandler.cpp:298-302 | In "ab" sized 10 and 12 with the caret between, fontSize reports 10 yet setFontSize(12) does nothing. |

## Left out

- File loading and saving (`load`, `saveAs`, `fileName`, `fileType`, `fileUrl`, documenthandler.cpp:310-380): file-system I/O, text-codec sniffing and URL/path wrappers.
- D-Bus transport: service and object registration, signal subscription and the synchronous `myText` call. These become inputs (`TextSync.BusEnvironment`: connected, name free, pull reply). Subscribing is assumed to succeed, although QtDBus refuses to connect or send when the channel does not give a valid interface name (an empty channel, one starting with a digit, or containing `-` or non-ASCII letters), so such a process never syncs in the program. Delivery is `Bus.Deliver`, applied explicitly, with no timing or cross-process ordering.
- The plain field getters `document()`, `myText()` and `sessionName()`: they return a state field. The fields `m_font` and `m_fontSize` are declared but never used.
- Cursor.SelectWord: Qt's word selection is approximated by the maximal run of word characters around the caret. A word character is anything outside ASCII white space, control characters and the punctuation Qt treats as word separators, the backslash among them. Three Qt behaviours differ. Unicode word-boundary rules are not modelled. Qt's start-of-word move steps back over white space to the previous word: in "hello  world" with the caret between the two spaces, Qt selects "hello" and a format setter changes it, while the model selects nothing and changes nothing. Qt's start-of-word move first steps one place right, so a caret just before a separator punctuation mark selects the run of separators after it: in "hello, world" with the caret at 5 Qt selects ",", and in `a\b` with the caret at 1 it selects `\`, while the model selects "hello" and "a".
- Formatting.CaretInWordReadsTarget, Formatting.SettersReadBack: these read-back promises hold for the model's word rule. When the caret follows a word character and precedes a separator punctuation mark, Qt changes the punctuation run while the getters read the character before the caret, so there the program does not read back the value set.
- Offsets and plain text: Qt counts offsets (`cursorPosition`, the selection ends, the range check in `setPosition`) in UTF-16 code units; the model counts one cell per Unicode scalar value, so a character outside the Basic Multilingual Plane is one offset here and two in Qt. `toPlainText()`, whose result onUndo/onRedo announce, also maps U+2028 to a newline and the non-breaking space to a space; `RichText.Text` returns the characters unchanged.
- Qt's charFormat at the start of an empty first block: it returns the block's character format; the model returns the empty format, because block character formats are not modelled.
- Qt's undo-stack granularity: each applied edit is one snapshot, and an edit that changes nothing is not recorded.
- Fractional point sizes: sizes are integers, because every size the handler sets is an integer. QVariant's double-to-int conversion is not modelled.
- Colours are reduced to RGBA components and alignment flags to four horizontal values. Font weights use the Qt 5 values.
- Integer width: offsets and sizes are C++ `int` but are only stored and compared, never computed, so the model uses unbounded integers.
- Signals emitted during construction, before the user interface connects, are recorded like any other event.
