/** Shared-text synchronisation: joining the session bus at construction,
    publishing local text edits, adopting inbound ones without echoing them,
    and broadcasting and applying undo/redo requests. */
module TextSync {
  import opened Common
  import opened Session
  import opened RichText
  import opened HandlerState

  /** What the construction-time query for the current text yields: no
      usable interface to the session's service, an invalid reply (a timeout
      or an error), or the text of whichever process owns the service name. */
  datatype PullReply = NoInterface | InvalidReply | Reply(text: string)

  /** The bus as a process finds it at construction: whether a session bus
      connection exists, whether the session's service name was still free to
      claim, and what the text query returned. */
  datatype BusEnvironment = BusEnvironment(connected: bool, nameFree: bool, pull: PullReply)

  /** The signal that publishes text `t` on the session's channel. */
  function TextMessage(session: string, t: string): Message {
    Message(ChannelOf(session), TextSignal(t))
  }

  /** A local edit of the shared text. Text equal to the current text is
      ignored; otherwise the text is adopted, announced locally, and then,
      unless the session is detached, published on the session's channel. */
  function SetMyText(h: Handler, t: string): (s: Step)
    ensures s.next == h.(text := t)
    ensures Notifications(s.events) == if t == h.text then [] else [MyTextChanged(t)]
    ensures Outbound(s.events) ==
      if t != h.text && h.session != Detached then [TextMessage(h.session, t)] else []
    ensures t != h.text ==> s.events[0] == Local(MyTextChanged(t))
  {
    if t == h.text then Step(h, [])
    else
      var announce := [Local(MyTextChanged(t))];
      if h.session != Detached then
        Step(h.(text := t), announce + [Send(TextMessage(h.session, t))])
      else
        Step(h.(text := t), announce)
  }

  /** Publishing the same text twice in a row sends at most one message, and
      the second call changes nothing and notifies nobody. */
  lemma SetMyTextAtMostOnce(h: Handler, t: string)
    ensures var first := SetMyText(h, t);
      var second := SetMyText(first.next, t);
      && second == Step(first.next, [])
      && |Outbound(first.events)| + |Outbound(second.events)| <= 1
  {
  }

  /** Text delivered from the bus. Text equal to the current text is
      ignored; otherwise it is adopted and announced locally. It is never sent
      back on the bus. */
  function OnMyTextChanged(h: Handler, t: string): (s: Step)
    ensures s.next == h.(text := t)
    ensures Outbound(s.events) == []
    ensures Notifications(s.events) == if t == h.text then [] else [MyTextChanged(t)]
  {
    if t == h.text then Step(h, []) else Step(h.(text := t), [Local(MyTextChanged(t))])
  }

  /** Applying the same inbound text twice is applying it once. */
  lemma OnMyTextChangedIdempotent(h: Handler, t: string)
    ensures var first := OnMyTextChanged(h, t);
      OnMyTextChanged(first.next, t) == Step(first.next, [])
  {
  }

  /** undo(): broadcast a payload-less undo request on the session's channel.
      Nothing local changes, and the request is sent even when the session is
      detached. */
  function RequestUndo(h: Handler): (s: Step)
    ensures s.next == h
    ensures Notifications(s.events) == []
    ensures Outbound(s.events) == [Message(ChannelOf(h.session), UndoRequested)]
  {
    Step(h, [Send(Message(ChannelOf(h.session), UndoRequested))])
  }

  /** redo(): the same for a redo request. */
  function RequestRedo(h: Handler): (s: Step)
    ensures s.next == h
    ensures Notifications(s.events) == []
    ensures Outbound(s.events) == [Message(ChannelOf(h.session), RedoRequested)]
  {
    Step(h, [Send(Message(ChannelOf(h.session), RedoRequested))])
  }

  /** An undo request from the bus: without a document nothing happens;
      otherwise the local document undoes its own last step and its resulting
      plain text is announced locally. The shared text is left as it was and
      nothing is sent. */
  function OnUndo(h: Handler): (s: Step)
    ensures s.next.text == h.text
    ensures Outbound(s.events) == []
    ensures h.document.None? ==> s == Step(h, [])
    ensures h.document.Some? ==>
      var d := Undo(h.document.value);
      && s.next == h.(document := Some(d))
      && Notifications(s.events) == [MyTextChanged(Text(d))]
  {
    match h.document
    case None => Step(h, [])
    case Some(doc) =>
      var d := Undo(doc);
      Step(h.(document := Some(d)), [Local(MyTextChanged(Text(d)))])
  }

  /** A redo request from the bus, symmetric to OnUndo. */
  function OnRedo(h: Handler): (s: Step)
    ensures s.next.text == h.text
    ensures Outbound(s.events) == []
    ensures h.document.None? ==> s == Step(h, [])
    ensures h.document.Some? ==>
      var d := Redo(h.document.value);
      && s.next == h.(document := Some(d))
      && Notifications(s.events) == [MyTextChanged(Text(d))]
  {
    match h.document
    case None => Step(h, [])
    case Some(doc) =>
      var d := Redo(doc);
      Step(h.(document := Some(d)), [Local(MyTextChanged(Text(d)))])
  }

  /** An undo request followed by a redo request, both delivered, gives back
      the document and shared text the handler had, provided its document had
      a step to undo. */
  lemma OnUndoThenOnRedo(h: Handler)
    requires h.document.Some? && h.document.value.undoStack != []
    ensures OnRedo(OnUndo(h).next).next == h
  {
    UndoRedoInverse(h.document.value, h.document.value.content);
  }

  /** Joining the session's bus (startDBus). A detached session, or a process
      without a bus connection, does nothing at all. Otherwise the handler
      claims the service name if it is free, subscribes to the session's
      three signals, and, if the text query succeeded, adopts the reply
      through SetMyText, which republishes it when it differs from the current
      text. */
  function StartDBus(h: Handler, env: BusEnvironment): (s: Step)
    ensures h.session == Detached || !env.connected ==> s == Step(h, [])
    ensures h.session != Detached && env.connected ==>
      && s.next == h.(subscribed := true, serving := env.nameFree, text := s.next.text)
      && s.next.text == (if env.pull.Reply? then env.pull.text else h.text)
      && Outbound(s.events) ==
           if env.pull.Reply? && env.pull.text != h.text
           then [TextMessage(h.session, env.pull.text)] else []
    ensures h.session != Detached && env.connected ==>
      Notifications(s.events) ==
        if env.pull.Reply? && env.pull.text != h.text then [MyTextChanged(env.pull.text)] else []
    ensures WellFormed(h) ==> WellFormed(s.next)
  {
    if h.session == Detached || !env.connected then Step(h, [])
    else
      var joined := h.(subscribed := true, serving := env.nameFree);
      match env.pull
      case Reply(t) => SetMyText(joined, t)
      case _ => Step(joined, [])
  }

  /** The constructor: resolve the session from the launch arguments, then
      join its bus. */
  function Create(args: seq<string>, env: BusEnvironment): (s: Step)
    ensures WellFormed(s.next)
    ensures s.next.session == ResolveSession(args)
    ensures s.next.document.None? && s.next.cursorPosition == -1
    ensures s.next.selectionStart == 0 && s.next.selectionEnd == 0
    ensures s.next.session == Detached || !env.connected ==>
      s.events == [] && !s.next.subscribed && s.next.text == []
    ensures s.next.session != Detached && env.connected ==>
      s.next.subscribed && s.next.serving == env.nameFree
    ensures s.next.session != Detached && env.connected && !env.pull.Reply? ==>
      s.events == [] && s.next.text == []
    ensures s.next.session != Detached && env.connected && env.pull.Reply? && env.pull.text != [] ==>
      && s.next.text == env.pull.text
      && Notifications(s.events) == [MyTextChanged(env.pull.text)]
      && Outbound(s.events) == [TextMessage(s.next.session, env.pull.text)]
    ensures s.next.session != Detached && env.connected && env.pull.Reply? ==>
      && s.next.text == env.pull.text
      && Notifications(s.events) == (if env.pull.text != [] then [MyTextChanged(env.pull.text)] else [])
      && Outbound(s.events) == (if env.pull.text != [] then [TextMessage(s.next.session, env.pull.text)] else [])
  {
    StartDBus(Initial(ResolveSession(args)), env)
  }
}
