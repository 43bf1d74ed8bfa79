/** The bus as the handlers see it: which signals reach which handler, the
    set of operations a handler performs, and the protocol properties that
    follow — channel isolation, no echo of inbound text, convergence of a
    subscriber to the text just published. */
module Bus {
  import opened Common
  import opened Session
  import opened RichText
  import opened HandlerState
  import opened TextSync
  import opened Formatting

  /** Delivery of a bus signal to one handler. Only a handler subscribed to
      the signal's interface receives it (the sender included, when it is
      subscribed); text goes to OnMyTextChanged, requests to OnUndo and
      OnRedo. A delivery never sends anything further. */
  function Deliver(h: Handler, m: Message): (s: Step)
    ensures !h.subscribed || m.channel != ChannelOf(h.session) ==> s == Step(h, [])
    ensures h.subscribed && m.channel == ChannelOf(h.session) ==>
      match m.signal
      case TextSignal(t) => s == OnMyTextChanged(h, t)
      case UndoRequested => s == OnUndo(h)
      case RedoRequested => s == OnRedo(h)
    ensures Outbound(s.events) == []
    ensures s.next.session == h.session && s.next.subscribed == h.subscribed && s.next.serving == h.serving
  {
    if !h.subscribed || m.channel != ChannelOf(h.session) then Step(h, [])
    else
      match m.signal
      case TextSignal(t) => OnMyTextChanged(h, t)
      case UndoRequested => OnUndo(h)
      case RedoRequested => OnRedo(h)
  }

  /** Every operation the user interface or the bus can invoke on a handler
      after construction. */
  datatype Action =
    | ShowDocument(document: Option<Document>)
    | MoveCaret(position: int)
    | MoveSelectionStart(position: int)
    | MoveSelectionEnd(position: int)
    | EditText(text: string)
    | Inbound(message: Message)
    | AskUndo
    | AskRedo
    | ChangeFamily(family: string)
    | ChangeColor(color: Color)
    | ChangeAlignment(alignment: Alignment)
    | ChangeBold(bold: bool)
    | ChangeItalic(italic: bool)
    | ChangeUnderline(underline: bool)
    | ChangeSize(size: int)

  function Apply(h: Handler, a: Action): Step {
    match a
    case ShowDocument(d) => SetDocument(h, d)
    case MoveCaret(p) => SetCursorPosition(h, p)
    case MoveSelectionStart(p) => SetSelectionStart(h, p)
    case MoveSelectionEnd(p) => SetSelectionEnd(h, p)
    case EditText(t) => SetMyText(h, t)
    case Inbound(m) => Deliver(h, m)
    case AskUndo => RequestUndo(h)
    case AskRedo => RequestRedo(h)
    case ChangeFamily(f) => SetFontFamily(h, f)
    case ChangeColor(c) => SetTextColor(h, c)
    case ChangeAlignment(al) => SetAlignment(h, al)
    case ChangeBold(b) => SetBold(h, b)
    case ChangeItalic(b) => SetItalic(h, b)
    case ChangeUnderline(b) => SetUnderline(h, b)
    case ChangeSize(n) => SetFontSize(h, n)
  }

  /** The session and the bus membership chosen at construction never
      change, so well-formedness is kept by every operation. */
  lemma ApplyKeepsMembership(h: Handler, a: Action)
    ensures var s := Apply(h, a);
      s.next.session == h.session && s.next.subscribed == h.subscribed && s.next.serving == h.serving
    ensures WellFormed(h) ==> WellFormed(Apply(h, a).next)
  {
  }

  /** Only a local text edit or an undo/redo request sends anything, and
      whatever is sent goes out on the sender's own session channel. */
  lemma OnlyRequestsPublish(h: Handler, a: Action)
    ensures !(a.EditText? || a.AskUndo? || a.AskRedo?) ==> Outbound(Apply(h, a).events) == []
    ensures forall m :: m in Outbound(Apply(h, a).events) ==> m.channel == ChannelOf(h.session)
  {
  }

  /** A signal on another session's channel never reaches a handler. */
  lemma ChannelIsolation(h: Handler, session: string, signal: Signal)
    requires session != h.session
    ensures Deliver(h, Message(ChannelOf(session), signal)) == Step(h, [])
  {
  }

  /** A detached handler publishes no text, and nothing it sends (it still
      sends undo and redo requests) reaches any well-formed handler. */
  lemma DetachedIsolation(sender: Handler, a: Action, receiver: Handler)
    requires sender.session == Detached && WellFormed(receiver)
    ensures forall m :: m in Outbound(Apply(sender, a).events) ==> !m.signal.TextSignal?
    ensures forall m :: m in Outbound(Apply(sender, a).events) ==> Deliver(receiver, m) == Step(receiver, [])
  {
  }

  /** Echo freedom and convergence. When a subscribed handler publishes new
      text, exactly one message goes out; a peer subscribed to the same
      session adopts the text, announces it at most once and sends nothing;
      and the publisher, receiving its own message back, does nothing. */
  lemma NoEcho(a: Handler, b: Handler, t: string)
    requires a.session == b.session && a.session != Detached
    requires a.subscribed && b.subscribed && t != a.text
    ensures var s := SetMyText(a, t);
      && Outbound(s.events) == [TextMessage(a.session, t)]
      && Deliver(s.next, TextMessage(a.session, t)) == Step(s.next, [])
    ensures var r := Deliver(b, TextMessage(a.session, t));
      && r.next.text == t
      && Outbound(r.events) == []
      && Notifications(r.events) == if b.text == t then [] else [MyTextChanged(t)]
  {
  }
}
