/** Concrete runs of the model: two processes sharing a session from join to
    undo, the word widening of a format edit, and the point-size check that
    looks at a different character than the size getter. */
module Scenarios {
  import opened Common
  import opened Session
  import opened RichText
  import opened Cursor
  import opened HandlerState
  import opened TextSync
  import opened Formatting
  import opened Bus

  const TeamArgs: seq<string> := ["editor", ChannelFlag, "team1"]

  /** Two processes join channel "team1". A starts first, owns the service
      name and finds only itself to ask, so it starts empty; then it takes
      the text "abc". B starts second and pulls "abc" from A; because the
      pull goes through setmyText, B broadcasts "abc" once more, and A,
      receiving that broadcast, does nothing. */
  lemma JoinPullsCurrentText()
    ensures var a0 := Create(TeamArgs, BusEnvironment(true, true, Reply([]))).next;
      var a1 := SetMyText(a0, "abc").next;
      var b0 := Create(TeamArgs, BusEnvironment(true, false, Reply(a1.text)));
      && a0.session == "team1" && a0.serving && a0.text == []
      && b0.next.session == "team1" && b0.next.subscribed && !b0.next.serving
      && b0.next.text == "abc"
      && Outbound(b0.events) == [Message("org.example.team1", TextSignal("abc"))]
      && Deliver(a1, Message("org.example.team1", TextSignal("abc"))) == Step(a1, [])
  {
    assert ChannelOf("team1") == "org.example.team1";
    var a0 := Create(TeamArgs, BusEnvironment(true, true, Reply([]))).next;
    assert a0.session == "team1";
  }

  /** An undo request from one peer reaches every peer subscribed to the
      session, the requester included; each undoes its own document and
      keeps its shared text. */
  lemma UndoReachesEveryPeer(requester: Handler, peer: Handler)
    requires requester.session == peer.session && requester.session != Detached
    requires requester.subscribed && peer.subscribed
    requires requester.document.Some? && peer.document.Some?
    ensures var request := Outbound(RequestUndo(requester).events)[0];
      && Deliver(requester, request).next == requester.(document := Some(Undo(requester.document.value)))
      && Deliver(peer, request).next == peer.(document := Some(Undo(peer.document.value)))
  {
  }

  /** An unformatted one-block document holding `t`. */
  function Plain(t: string): (d: Document)
    ensures Text(d) == t && d.content.alignments == map[] && d.undoStack == [] && d.redoStack == []
    ensures forall i :: 0 <= i < |t| ==> d.content.cells[i] == Cell(t[i], NoFormat)
  {
    var cells := seq(|t|, i requires 0 <= i < |t| => Cell(t[i], NoFormat));
    assert PlainText(cells) == t;
    Document(Snapshot(cells, map[]), [], [])
  }

  /** With the caret inside "world" of "hello world", setting bold affects
      exactly "world": offsets 6 to 10 become bold, the others are
      untouched, and bold reads back as set. */
  lemma CaretWidensToWord()
    ensures var h := Handler(Some(Plain("hello world")), 8, 0, 0, [], DefaultSession, false, false);
      var d := SetBold(h, true).next.document.value;
      && (forall i :: 6 <= i < 11 ==> d.content.cells[i].format == NoFormat.(weight := Some(WeightBold)))
      && (forall i :: 0 <= i < 6 ==> d.content.cells[i].format == NoFormat)
      && Bold(SetBold(h, true).next)
  {
    var t := "hello world";
    var h := Handler(Some(Plain(t)), 8, 0, 0, [], DefaultSession, false, false);
    assert !IsWordChar(t[5]);
    assert WordStart(t, 8) == 6 by {
      assert WordStart(t, 8) == WordStart(t, 7) == WordStart(t, 6);
    }
    assert WordEnd(t, 8) == 11 by {
      assert WordEnd(t, 8) == WordEnd(t, 9) == WordEnd(t, 10) == WordEnd(t, 11);
    }
    assert Target(h) == Some(TextCursor(6, 11));
    CaretInWordReadsTarget(h);
    SettersReadBack(h, Font([], 0), [], Black, true);
  }

  /** Under the model's word rule a backslash ends a word: with the caret
      after 'a' in "a\\b", setting bold affects only 'a'. (Qt's own word
      selection picks the backslash here; the model does not follow it.) */
  lemma BackslashEndsWord()
    ensures var h := Handler(Some(Plain("a\\b")), 1, 0, 0, [], DefaultSession, false, false);
      var d := SetBold(h, true).next.document.value;
      && d.content.cells[0].format == NoFormat.(weight := Some(WeightBold))
      && (forall i :: 1 <= i < 3 ==> d.content.cells[i].format == NoFormat)
  {
    var t := "a\\b";
    var h := Handler(Some(Plain(t)), 1, 0, 0, [], DefaultSession, false, false);
    assert !IsWordChar(t[1]);
    assert WordEnd(t, 1) == 1;
    assert Target(h) == Some(TextCursor(0, 1));
  }

  /** setFontSize compares the size of the character just before the end of
      the widened word, while fontSize reads the character just before the
      caret. In "ab" with 'a' at size 10 and 'b' at size 12 and the caret
      between them, fontSize reports 10, yet setFontSize(12) does nothing. */
  lemma SizeCheckReadsWordEnd()
    ensures var cells := [Cell('a', NoFormat.(pointSize := Some(10))), Cell('b', NoFormat.(pointSize := Some(12)))];
      var h := Handler(Some(Document(Snapshot(cells, map[]), [], [])), 1, 0, 0, [], DefaultSession, false, false);
      FontSize(h, Font([], 9)) == 10 && SetFontSize(h, 12) == Step(h, [])
  {
    var cells := [Cell('a', NoFormat.(pointSize := Some(10))), Cell('b', NoFormat.(pointSize := Some(12)))];
    var t := PlainText(cells);
    assert t == "ab";
    assert WordStart(t, 1) == 0 by {
      assert WordStart(t, 1) == WordStart(t, 0);
    }
    assert WordEnd(t, 1) == 2 by {
      assert WordEnd(t, 1) == WordEnd(t, 2);
    }
  }
}
