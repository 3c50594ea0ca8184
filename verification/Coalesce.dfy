/**
 * Streamed text gathered over a short window (daemon/src/coalesce.ts).
 *
 * What a chat shows is its messages in order, with adjacent pieces of text run together.
 * The sender may hold text back for a while, but never changes that view.
 */
module Coalesce {
  import opened Common
  import opened OrderedMap

  /** `body` stands for every other field. */
  datatype Message = Message(kind: string, sessionId: Option<string>, text: Option<string>, body: string)

  predicate IsDelta(m: Message) {
    m.kind == "delta" && m.sessionId.Some? && m.sessionId.value != "" && m.text.Some?
  }

  function DeltaOf(sessionId: string, text: string): Message {
    Message("delta", Some(sessionId), Some(text), "")
  }

  // ---------- what a chat shows ----------------------------------------------

  datatype Item = Text(text: string) | Event(message: Message)

  /** More text joins the text before it, or starts a new piece. */
  function AddText(view: seq<Item>, text: string): seq<Item> {
    if view != [] && view[|view| - 1].Text?
    then view[..|view| - 1] + [Text(view[|view| - 1].text + text)]
    else view + [Text(text)]
  }

  function Show(view: seq<Item>, chat: string, m: Message): seq<Item> {
    if m.sessionId != Some(chat) then view
    else if IsDelta(m) then AddText(view, m.text.value)
    else view + [Event(m)]
  }

  function View(messages: seq<Message>, chat: string): seq<Item> {
    if messages == [] then [] else Show(View(messages[..|messages| - 1], chat), chat, messages[|messages| - 1])
  }

  /** Everything that is not streamed text, in order, whatever chat it is about. */
  function NonDeltas(messages: seq<Message>): seq<Message> {
    if messages == [] then [] else
      var m := messages[|messages| - 1];
      NonDeltas(messages[..|messages| - 1]) + if IsDelta(m) then [] else [m]
  }

  lemma ViewSnoc(messages: seq<Message>, m: Message, chat: string)
    ensures View(messages + [m], chat) == Show(View(messages, chat), chat, m)
    ensures NonDeltas(messages + [m]) == NonDeltas(messages) + if IsDelta(m) then [] else [m]
  {
    assert (messages + [m])[..|messages|] == messages;
  }

  /** A view taken apart: each character of text, and each other message. */
  datatype Token = Char(c: char) | Whole(message: Message)

  function Chars(text: string): seq<Token> {
    seq(|text|, i requires 0 <= i < |text| => Char(text[i]))
  }

  function Tokens(view: seq<Item>): seq<Token> {
    if view == [] then [] else
      var last := view[|view| - 1];
      Tokens(view[..|view| - 1]) + if last.Text? then Chars(last.text) else [Whole(last.message)]
  }

  /** What the chat was sent, in order: its text character by character, and its other messages. */
  function SentTo(messages: seq<Message>, chat: string): seq<Token> {
    if messages == [] then [] else
      var m := messages[|messages| - 1];
      SentTo(messages[..|messages| - 1], chat)
      + if m.sessionId != Some(chat) then []
        else if m.kind == "delta" && chat != "" && m.text.Some? then Chars(m.text.value)
        else [Whole(m)]
  }

  /** What a chat shows is all its text and all its other messages, each in its place. */
  lemma {:induction false} ViewShowsAll(messages: seq<Message>, chat: string)
    ensures Tokens(View(messages, chat)) == SentTo(messages, chat)
  {
    if messages == [] {
    } else {
      var before, m := messages[..|messages| - 1], messages[|messages| - 1];
      ViewShowsAll(before, chat);
      assert SentTo(before, chat) + [] == SentTo(before, chat);
      if m.sessionId == Some(chat) && IsDelta(m) {
        AddTextTokens(View(before, chat), m.text.value);
      } else if m.sessionId == Some(chat) {
        var view := View(before, chat);
        assert (view + [Event(m)])[..|view|] == view;
      }
    }
  }

  lemma AddTextTokens(view: seq<Item>, text: string)
    ensures Tokens(AddText(view, text)) == Tokens(view) + Chars(text)
  {
    if view != [] && view[|view| - 1].Text? {
      var init, last := view[..|view| - 1], view[|view| - 1].text;
      assert (init + [Text(last + text)])[..|init|] == init;
      assert Chars(last + text) == Chars(last) + Chars(text);
    } else {
      assert (view + [Text(text)])[..|view|] == view;
    }
  }

  /** No two pieces of text stand side by side. */
  predicate IsMerged(view: seq<Item>) {
    forall i | 0 <= i < |view| - 1 :: view[i].Text? ==> view[i + 1].Event?
  }

  lemma {:induction false} ViewIsMerged(messages: seq<Message>, chat: string)
    ensures IsMerged(View(messages, chat))
  {
    if messages == [] {
    } else {
      ViewIsMerged(messages[..|messages| - 1], chat);
    }
  }

  lemma AddTextTwice(view: seq<Item>, a: string, b: string)
    ensures AddText(AddText(view, a), b) == AddText(view, a + b)
  {
    if view != [] && view[|view| - 1].Text? {
      assert view[|view| - 1].text + a + b == view[|view| - 1].text + (a + b);
    }
  }

  // ---------- the text gathered per chat ---------------------------------------

  type Gathered = seq<Entry<string>>

  /** No chat twice, and none without a name. */
  predicate WellKept(gathered: Gathered) {
    Unique(gathered) && Get(gathered, "").None?
  }

  /** A view completed by the text still held back for the chat. */
  function Completed(view: seq<Item>, held: Option<string>): seq<Item> {
    if held.None? then view else AddText(view, held.value)
  }

  /**
   * The promise: with the text still held back, every chat shows what it would show had
   * each message been sent at once, and all other messages have gone out in order.
   */
  ghost predicate Faithful(input: seq<Message>, sent: seq<Message>, gathered: Gathered) {
    && (forall chat :: View(input, chat) == Completed(View(sent, chat), Get(gathered, chat)))
    && NonDeltas(input) == NonDeltas(sent)
  }

  lemma SentAtOnce(input: seq<Message>, sent: seq<Message>, gathered: Gathered, m: Message)
    requires Faithful(input, sent, gathered)
    requires m.sessionId.Some? ==> Get(gathered, m.sessionId.value) == None
    ensures Faithful(input + [m], sent + [m], gathered)
  {
    ViewSnoc(input, m, "");
    ViewSnoc(sent, m, "");
    hide View, NonDeltas, Get, AddText;
    forall chat
      ensures View(input + [m], chat) == Completed(View(sent + [m], chat), Get(gathered, chat))
    {
      ViewSnoc(input, m, chat);
      ViewSnoc(sent, m, chat);
    }
  }

  lemma HeldBack(input: seq<Message>, sent: seq<Message>, gathered: Gathered, m: Message)
    requires Faithful(input, sent, gathered) && IsDelta(m)
    ensures var chat := m.sessionId.value;
            var before := Get(gathered, chat);
            var text := (if before.None? then "" else before.value) + m.text.value;
            Faithful(input + [m], sent, Set(gathered, chat, text))
  {
    var id := m.sessionId.value;
    var before := Get(gathered, id);
    var text := (if before.None? then "" else before.value) + m.text.value;
    ViewSnoc(input, m, id);
    forall chat
      ensures View(input + [m], chat) == Completed(View(sent, chat), Get(Set(gathered, id, text), chat))
    {
      ViewSnoc(input, m, chat);
      SetGet(gathered, id, text, chat);
      if before.Some? {
        AddTextTwice(View(sent, id), before.value, m.text.value);
      } else {
        assert "" + m.text.value == m.text.value;
      }
    }
  }

  /** Sending the text held back for one chat. */
  lemma Released(input: seq<Message>, sent: seq<Message>, gathered: Gathered, id: string)
    requires Faithful(input, sent, gathered) && WellKept(gathered)
    requires id != "" && Get(gathered, id).Some?
    ensures Faithful(input, sent + [DeltaOf(id, Get(gathered, id).value)], Delete(gathered, id))
  {
    var m := DeltaOf(id, Get(gathered, id).value);
    ViewSnoc(sent, m, id);
    forall chat
      ensures View(input, chat) == Completed(View(sent + [m], chat), Get(Delete(gathered, id), chat))
    {
      ViewSnoc(sent, m, chat);
      DeleteGet(gathered, id, chat);
    }
  }

  // ---------- the sender ------------------------------------------------------

  class CoalescingSender {
    /** The text held back, chat by chat. */
    var gathered: Gathered
    /** The window's timer is armed. */
    var armed: bool
    /** What the transport has been handed. */
    var sent: seq<Message>
    /** What callers have sent, less what a close threw away. */
    ghost var input: seq<Message>

    ghost predicate Valid()
      reads this
    {
      && WellKept(gathered)
      && Faithful(input, sent, gathered)
      && (gathered != [] ==> armed)
    }

    constructor ()
      ensures Valid() && sent == [] && input == [] && gathered == [] && !armed
    {
      gathered, armed, sent, input := [], false, [], [];
    }

    method FlushAll()
      requires WellKept(gathered) && Faithful(input, sent, gathered)
      modifies `gathered, `sent
      ensures gathered == [] && Faithful(input, sent, [])
      ensures |sent| == |old(sent)| + |old(gathered)| && old(sent) <= sent
      ensures forall i :: 0 <= i < |old(gathered)| ==>
                sent[|old(sent)| + i] == DeltaOf(old(gathered)[i].key, old(gathered)[i].value)
    {
      ghost var rest := gathered;
      for i := 0 to |gathered|
        invariant gathered == old(gathered) && rest == gathered[i..]
        invariant WellKept(rest) && Faithful(input, sent, rest)
        invariant |sent| == |old(sent)| + i && old(sent) <= sent
        invariant forall k :: 0 <= k < i ==> sent[|old(sent)| + k] == DeltaOf(gathered[k].key, gathered[k].value)
      {
        Released(input, sent, rest, gathered[i].key);
        sent := sent + [DeltaOf(gathered[i].key, gathered[i].value)];
        rest := rest[1..];
      }
      gathered := [];
    }

    /** The window closed. Everything gathered goes, and the timer stops only if there was nothing. */
    method Tick()
      requires Valid() && armed
      modifies `gathered, `sent, `armed
      ensures Valid() && gathered == []
      ensures armed == (old(gathered) != [])
      ensures old(gathered) == [] ==> sent == old(sent)
      ensures old(sent) <= sent && |sent| == |old(sent)| + |old(gathered)|
      ensures forall chat :: View(sent, chat) == View(input, chat)
    {
      if |gathered| == 0 {
        armed := false;
        return;
      }
      FlushAll();
      armed := true;
    }

    method Send(message: Message)
      requires Valid()
      modifies this
      ensures Valid()
      ensures input == old(input) + [message]
      ensures armed == (old(armed) || IsDelta(message))
      // Text goes at once when nothing is recent, and otherwise only adds to what is held back.
      ensures IsDelta(message) ==> sent == if old(armed) then old(sent) else old(sent) + [message]
      ensures (old(armed) && message.kind == "delta" && message.text.Some?
               && message.sessionId.Some? && message.sessionId.value != "") ==> sent == old(sent)
      // Anything else goes at once.
      ensures !IsDelta(message) ==> old(sent) <= sent && sent != [] && sent[|sent| - 1] == message
    {
      input := input + [message];
      if IsDelta(message) {
        if !armed {
          SentAtOnce(old(input), sent, gathered, message);
          sent := sent + [message];
          armed := true;
          return;
        }
        var id := message.sessionId.value;
        var before := Get(gathered, id);
        var text := (if before.None? then "" else before.value) + message.text.value;
        HeldBack(old(input), sent, gathered, message);
        SetKeepsUnique(gathered, id, text);
        SetGet(gathered, id, text, "");
        gathered := Set(gathered, id, text);
        return;
      }
      if message.sessionId.Some? {
        var id := message.sessionId.value;
        var text := Get(gathered, id);
        if text.Some? {
          Released(old(input), sent, gathered, id);
          DeleteKeepsUnique(gathered, id);
          DeleteGet(gathered, id, "");
          DeleteGet(gathered, id, id);
          gathered := Delete(gathered, id);
          sent := sent + [DeltaOf(id, text.value)];
        }
      }
      SentAtOnce(old(input), sent, gathered, message);
      sent := sent + [message];
    }

    /** The connection went: nothing more is sent, and no timer is left. */
    method Close()
      requires Valid()
      modifies this
      ensures Valid() && !armed && gathered == []
      ensures sent == old(sent)
    {
      armed := false;
      gathered := [];
      input := sent;
    }
  }

  // ---------- whole runs ------------------------------------------------------

  datatype Step = Send(message: Message) | Tick

  function Inputs(steps: seq<Step>): seq<Message> {
    if steps == [] then [] else
      var last := steps[|steps| - 1];
      Inputs(steps[..|steps| - 1]) + if last.Send? then [last.message] else []
  }

  /**
   * Any interleaving of messages and ticks (a tick without an armed timer cannot happen and
   * is skipped), followed by one last tick, delivers to every chat what it was sent.
   */
  method Run(steps: seq<Step>) returns (sender: CoalescingSender)
    ensures sender.Valid() && sender.gathered == [] && sender.input == Inputs(steps)
    ensures forall chat :: View(sender.sent, chat) == View(Inputs(steps), chat)
    ensures forall chat :: SentTo(sender.sent, chat) == SentTo(Inputs(steps), chat)
    ensures NonDeltas(sender.sent) == NonDeltas(Inputs(steps))
  {
    sender := new CoalescingSender();
    for i := 0 to |steps|
      invariant sender.Valid() && fresh(sender) && sender.input == Inputs(steps[..i])
    {
      assert steps[..i + 1][..i] == steps[..i];
      match steps[i]
      case Send(message) =>
        sender.Send(message);
      case Tick =>
        if sender.armed {
          sender.Tick();
        }
    }
    assert steps[..|steps|] == steps;
    if sender.armed {
      sender.Tick();
    }
    forall chat
      ensures SentTo(sender.sent, chat) == SentTo(Inputs(steps), chat)
    {
      ViewShowsAll(sender.sent, chat);
      ViewShowsAll(Inputs(steps), chat);
    }
  }
}
