/** The state of one DocumentHandler and the events its operations emit.
    Every operation is a pure function from the state to a Step: the next
    state and the ordered list of events it emitted, where an event is
    either a local change notification (a Qt signal to the user interface)
    or a message sent on the bus. */
module HandlerState {
  import opened Common
  import opened Session
  import opened RichText

  /** The handler's fields: the document shown (absent until the user
      interface supplies one), the cursor and selection offsets as the user
      interface last set them, the shared text, the session fixed at
      construction, whether the handler subscribed to its session's signals,
      and whether it owns the session's service name and so answers text
      queries. */
  datatype Handler = Handler(
    document: Option<Document>,
    cursorPosition: int,
    selectionStart: int,
    selectionEnd: int,
    text: string,
    session: string,
    subscribed: bool,
    serving: bool)

  /** A detached handler never joins the bus, and only a subscribed handler
      can own the service name. */
  predicate WellFormed(h: Handler) {
    && (h.subscribed ==> h.session != Detached)
    && (h.serving ==> h.subscribed)
  }

  /** Change notifications to the user interface. */
  datatype Notification =
    | DocumentChanged
    | CursorPositionChanged
    | SelectionStartChanged
    | SelectionEndChanged
    | FontFamilyChanged
    | TextColorChanged
    | AlignmentChanged
    | BoldChanged
    | ItalicChanged
    | UnderlineChanged
    | FontSizeChanged
    | MyTextChanged(text: string)

  /** Bus signal kinds: the full shared text, or a payload-less undo or redo
      request. */
  datatype Signal = TextSignal(text: string) | UndoRequested | RedoRequested

  /** A bus signal on the interface named `channel`. */
  datatype Message = Message(channel: string, signal: Signal)

  datatype Event = Local(note: Notification) | Send(message: Message)

  datatype Step = Step(next: Handler, events: seq<Event>)

  /** The messages among the events, in order. */
  function Outbound(events: seq<Event>): (sent: seq<Message>)
    ensures |sent| <= |events|
    ensures forall m :: m in sent <==> Send(m) in events
    ensures sent == [] <==> forall e :: e in events ==> e.Local?
  {
    if events == [] then []
    else
      assert events == [events[0]] + events[1..];
      (if events[0].Send? then [events[0].message] else []) + Outbound(events[1..])
  }

  /** The local notifications among the events, in order. */
  function Notifications(events: seq<Event>): (notes: seq<Notification>)
    ensures |notes| <= |events|
    ensures forall n :: n in notes <==> Local(n) in events
    ensures notes == [] <==> forall e :: e in events ==> e.Send?
  {
    if events == [] then []
    else
      assert events == [events[0]] + events[1..];
      (if events[0].Local? then [events[0].note] else []) + Notifications(events[1..])
  }

  /** The state right after field initialisation in the constructor: no
      document, caret offset -1, empty selection at 0, empty text, not on
      the bus yet. */
  function Initial(session: string): (h: Handler)
    ensures WellFormed(h)
    ensures h.session == session && h.text == []
    ensures h.document.None? && h.cursorPosition == -1
    ensures h.selectionStart == 0 && h.selectionEnd == 0
    ensures !h.subscribed && !h.serving
  {
    Handler(None, -1, 0, 0, [], session, false, false)
  }

  /** The notifications that tell observers every derived formatting
      attribute is stale (reset). */
  const StaleAttributes: seq<Event> := [
    Local(FontFamilyChanged), Local(AlignmentChanged), Local(BoldChanged), Local(ItalicChanged),
    Local(UnderlineChanged), Local(FontSizeChanged), Local(TextColorChanged)]

  /** Set the document. No equality check: the notification always fires. */
  function SetDocument(h: Handler, document: Option<Document>): (s: Step)
    ensures s.next == h.(document := document)
    ensures s.events == [Local(DocumentChanged)]
  {
    Step(h.(document := document), [Local(DocumentChanged)])
  }

  /** Move the caret. An unchanged offset does nothing; a new one marks
      every formatting attribute stale and then announces the move. */
  function SetCursorPosition(h: Handler, position: int): (s: Step)
    ensures s.next == h.(cursorPosition := position)
    ensures forall e :: e in s.events ==> e.Local?
    ensures position == h.cursorPosition ==> s.events == []
    ensures position != h.cursorPosition ==> s.events == StaleAttributes + [Local(CursorPositionChanged)]
  {
    if position == h.cursorPosition then Step(h, [])
    else Step(h.(cursorPosition := position), StaleAttributes + [Local(CursorPositionChanged)])
  }

  /** Move the selection start; an unchanged offset does nothing. */
  function SetSelectionStart(h: Handler, position: int): (s: Step)
    ensures s.next == h.(selectionStart := position)
    ensures s.events == if position == h.selectionStart then [] else [Local(SelectionStartChanged)]
  {
    if position == h.selectionStart then Step(h, [])
    else Step(h.(selectionStart := position), [Local(SelectionStartChanged)])
  }

  /** Move the selection end; an unchanged offset does nothing. */
  function SetSelectionEnd(h: Handler, position: int): (s: Step)
    ensures s.next == h.(selectionEnd := position)
    ensures s.events == if position == h.selectionEnd then [] else [Local(SelectionEndChanged)]
  {
    if position == h.selectionEnd then Step(h, [])
    else Step(h.(selectionEnd := position), [Local(SelectionEndChanged)])
  }

  /** Setting the same offset twice notifies at most once: the second call
      is silent and changes nothing. */
  lemma CursorSettersIdempotent(h: Handler, p: int)
    ensures var h1 := SetCursorPosition(h, p).next; SetCursorPosition(h1, p) == Step(h1, [])
    ensures var h1 := SetSelectionStart(h, p).next; SetSelectionStart(h1, p) == Step(h1, [])
    ensures var h1 := SetSelectionEnd(h, p).next; SetSelectionEnd(h1, p) == Step(h1, [])
  {
  }
}
