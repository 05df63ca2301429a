/** What one turn of `MyBot.onTurn` does, as values: given the incoming activity and the
    user state's `firstTime` flag before the turn, the replies sent in order, the flag
    after the turn, and the turn's outward effects ending in the single save. */
module Dispatch {
  import opened Common
  import opened Text

  /** Some of the Bot Framework activity types; only `Message` is told apart by the
      dispatcher, so the others stand for every non-message type. */
  datatype ActivityType =
    | Message
    | ConversationUpdate
    | ContactRelationUpdate
    | Typing
    | EndOfConversation
    | Event
    | Invoke

  /** The parts of `context.activity` that the dispatcher reads: its type, `from.name`
      and `text`. */
  datatype Activity = Activity(kind: ActivityType, fromName: string, text: Option<string>)

  /** The dispatcher reads `text` on message activities only, and needs it there. */
  predicate HasText(a: Activity) {
    a.kind == Message ==> a.text.Some?
  }

  /** An adaptive card built from one of the two templates. Of the welcome card only the
      text written into its first body element is modelled. */
  datatype Card = Welcome(greeting: string) | Menu

  /** One `context.sendActivity` call: a plain text, or an activity carrying one card. */
  datatype Reply = TextReply(text: string) | CardReply(card: Card)

  /** An outward effect of a turn, in the order it happens. */
  datatype Effect = Sent(reply: Reply) | Saved

  const QueueCountText: string := "There are X messages in the Queue"
  const QueueDetailsText: string := "Queue details"

  function WelcomeGreeting(first: string): string {
    "Hi " + first + ", welcome to the GLG Surveys Bot"
  }

  function NotUnderstoodText(first: string): string {
    "Sorry " + first + ", I dont understand that request..... here is more info"
  }

  /** The cases of the command switch. */
  datatype Command = QueueCount | QueueDetails | ShowWelcome | NotUnderstood

  /** The command switch: the text is lower-cased, lower-cased once more, and compared
      with the keys `q`, `d` and `w`. Each key is matched in either case and by nothing
      else. */
  function CommandOf(text: string): (c: Command)
    ensures c == QueueCount <==> text == "q" || text == "Q"
    ensures c == QueueDetails <==> text == "d" || text == "D"
    ensures c == ShowWelcome <==> text == "w" || text == "W"
    ensures c == NotUnderstood <==> text !in {"q", "Q", "d", "D", "w", "W"}
  {
    LowerIdempotent(text);
    LowerIsLetter(text, 'q');
    LowerIsLetter(text, 'd');
    LowerIsLetter(text, 'w');
    var key := Lower(Lower(text));
    if key == "q" then QueueCount
    else if key == "d" then QueueDetails
    else if key == "w" then ShowWelcome
    else NotUnderstood
  }

  /** The replies to a message whose text is `text`, from a sender whose first name is
      `first`: one reply for each command key in either case, and otherwise the apology
      followed by the menu card. */
  function MessageReplies(text: string, first: string): (replies: seq<Reply>)
    ensures text == "q" || text == "Q" ==> replies == [TextReply(QueueCountText)]
    ensures text == "d" || text == "D" ==> replies == [TextReply(QueueDetailsText)]
    ensures text == "w" || text == "W" ==> replies == [CardReply(Welcome(WelcomeGreeting(first)))]
    ensures text !in {"q", "Q", "d", "D", "w", "W"} ==>
      replies == [TextReply(NotUnderstoodText(first)), CardReply(Menu)]
  {
    match CommandOf(text)
    case QueueCount => [TextReply(QueueCountText)]
    case QueueDetails => [TextReply(QueueDetailsText)]
    case ShowWelcome => [CardReply(Welcome(WelcomeGreeting(first)))]
    case NotUnderstood => [TextReply(NotUnderstoodText(first)), CardReply(Menu)]
  }

  /** The replies of one turn and the `firstTime` flag after it. */
  datatype Outcome = Outcome(replies: seq<Reply>, firstTime: Option<bool>)

  /** One turn: a message is answered from the command switch; any other activity sends
      the welcome card and clears the flag to `false` when the flag was unset. */
  function TurnOutcome(a: Activity, firstTime: Option<bool>): (o: Outcome)
    requires HasText(a)
    ensures o.firstTime.None? <==> firstTime.None? && a.kind == Message
    ensures firstTime.Some? ==> o.firstTime == firstTime
    ensures o.replies == [] <==> a.kind != Message && firstTime.Some?
  {
    var first := FirstName(a.fromName);
    if a.kind == Message then Outcome(MessageReplies(a.text.value, first), firstTime)
    else if firstTime.None? then Outcome([CardReply(Welcome(WelcomeGreeting(first)))], Some(false))
    else Outcome([], firstTime)
  }

  /** The effects of sending `replies` in order. */
  function SendAll(replies: seq<Reply>): seq<Effect> {
    if replies == [] then [] else [Sent(replies[0])] + SendAll(replies[1..])
  }

  /** The replies recorded in a sequence of effects. */
  function RepliesOf(effects: seq<Effect>): seq<Reply> {
    if effects == [] then []
    else if effects[0].Sent? then [effects[0].reply] + RepliesOf(effects[1..])
    else RepliesOf(effects[1..])
  }

  /** The number of saves in a sequence of effects. */
  function SaveCount(effects: seq<Effect>): nat {
    if effects == [] then 0
    else (if effects[0].Saved? then 1 else 0) + SaveCount(effects[1..])
  }

  lemma {:induction false} SendAllSendsOnly(replies: seq<Reply>)
    ensures |SendAll(replies)| == |replies|
    ensures RepliesOf(SendAll(replies)) == replies
    ensures SaveCount(SendAll(replies)) == 0
  {
    if replies != [] {
      SendAllSendsOnly(replies[1..]);
      assert SendAll(replies)[1..] == SendAll(replies[1..]);
      assert [replies[0]] + replies[1..] == replies;
    }
  }

  lemma {:induction false} EffectsAppend(e1: seq<Effect>, e2: seq<Effect>)
    ensures RepliesOf(e1 + e2) == RepliesOf(e1) + RepliesOf(e2)
    ensures SaveCount(e1 + e2) == SaveCount(e1) + SaveCount(e2)
  {
    if e1 != [] {
      EffectsAppend(e1[1..], e2);
      assert (e1 + e2)[1..] == e1[1..] + e2;
      assert (e1 + e2)[0] == e1[0];
    } else {
      assert e1 + e2 == e2;
    }
  }

  /** The outward effects of one turn: its replies in order, then the save. Every turn
      saves exactly once, as its last effect, after all of its replies. */
  function TurnEffects(a: Activity, firstTime: Option<bool>): (effects: seq<Effect>)
    requires HasText(a)
    ensures SaveCount(effects) == 1
    ensures effects[|effects| - 1] == Saved
    ensures RepliesOf(effects) == TurnOutcome(a, firstTime).replies
  {
    var replies := TurnOutcome(a, firstTime).replies;
    SendAllSendsOnly(replies);
    EffectsAppend(SendAll(replies), [Saved]);
    assert RepliesOf([Saved]) == [] && SaveCount([Saved]) == 1;
    SendAll(replies) + [Saved]
  }

  /** A message turn sends exactly what its command calls for, never reads the
      `firstTime` flag and leaves it as it was. */
  lemma MessageTurn(a: Activity, firstTime: Option<bool>)
    requires a.kind == Message && a.text.Some?
    ensures var o := TurnOutcome(a, firstTime);
      var text, first := a.text.value, FirstName(a.fromName);
      && o.firstTime == firstTime
      && o.replies == TurnOutcome(a, None).replies
      && (text == "q" || text == "Q" ==> o.replies == [TextReply(QueueCountText)])
      && (text == "d" || text == "D" ==> o.replies == [TextReply(QueueDetailsText)])
      && (text == "w" || text == "W" ==> o.replies == [CardReply(Welcome(WelcomeGreeting(first)))])
      && (text !in {"q", "Q", "d", "D", "w", "W"} ==>
            o.replies == [TextReply(NotUnderstoodText(first)), CardReply(Menu)])
  {
  }

  /** A turn of any other type sends one welcome card and sets the flag to `false` when
      the flag is unset, and otherwise sends nothing and keeps the flag. */
  lemma NonMessageTurn(a: Activity, firstTime: Option<bool>)
    requires a.kind != Message
    ensures var o := TurnOutcome(a, firstTime);
      && (firstTime.None? ==>
            o == Outcome([CardReply(Welcome(WelcomeGreeting(FirstName(a.fromName))))], Some(false)))
      && (firstTime.Some? ==> o == Outcome([], firstTime))
  {
  }

  /** The `firstTime` flag after a series of turns. */
  function FlagAfter(turns: seq<Activity>, firstTime: Option<bool>): Option<bool>
    requires forall i :: 0 <= i < |turns| ==> HasText(turns[i])
  {
    if turns == [] then firstTime
    else FlagAfter(turns[1..], TurnOutcome(turns[0], firstTime).firstTime)
  }

  /** How many turns of a series are non-message turns that send something, that is,
      that send the one-time welcome card. */
  function UnpromptedWelcomes(turns: seq<Activity>, firstTime: Option<bool>): nat
    requires forall i :: 0 <= i < |turns| ==> HasText(turns[i])
  {
    if turns == [] then 0
    else
      var o := TurnOutcome(turns[0], firstTime);
      (if turns[0].kind != Message && o.replies != [] then 1 else 0)
        + UnpromptedWelcomes(turns[1..], o.firstTime)
  }

  predicate HasNonMessage(turns: seq<Activity>) {
    exists i :: 0 <= i < |turns| && turns[i].kind != Message
  }

  /** Over any series of turns, messages and others mixed, the welcome card is sent
      unprompted at most once: exactly once when the flag starts unset and some turn is
      not a message, and never otherwise. The flag ends `false` in the first case and
      unchanged otherwise. */
  lemma {:induction false} WelcomedAtMostOnce(turns: seq<Activity>, firstTime: Option<bool>)
    requires forall i :: 0 <= i < |turns| ==> HasText(turns[i])
    ensures UnpromptedWelcomes(turns, firstTime) ==
      (if firstTime.None? && HasNonMessage(turns) then 1 else 0)
    ensures FlagAfter(turns, firstTime) ==
      (if firstTime.None? && HasNonMessage(turns) then Some(false) else firstTime)
  {
    if turns != [] {
      var o := TurnOutcome(turns[0], firstTime);
      var rest := turns[1..];
      WelcomedAtMostOnce(rest, o.firstTime);
      assert forall i :: 0 <= i < |rest| ==> rest[i] == turns[i + 1];
      if turns[0].kind != Message {
        assert HasNonMessage(turns);
      } else {
        if HasNonMessage(turns) {
          var i :| 0 <= i < |turns| && turns[i].kind != Message;
          assert rest[i - 1].kind != Message;
        }
        if HasNonMessage(rest) {
          var i :| 0 <= i < |rest| && rest[i].kind != Message;
          assert turns[i + 1].kind != Message;
        }
      }
    }
  }
}
