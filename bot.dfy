/** The bot object: its construction, which checks its three parameters, and its turn
    handler, which answers one activity, updates the user state's `firstTime` flag and
    saves the user state. */
module Bot {
  import opened Common
  import opened Text
  import opened Dispatch

  /** The constructor's parameters, in the order they are checked. */
  datatype Parameter = ConversationStateParam | UserStateParam | BotConfigParam {
    /** The parameter's name in the constructor's signature. */
    function Name(): string {
      match this
      case ConversationStateParam => "conversationState"
      case UserStateParam => "userState"
      case BotConfigParam => "botConfig"
    }

    /** The message of the error thrown when this parameter is missing. */
    function Message(): string {
      "Missing parameter.  " + Name() + " is required"
    }
  }

  /** Different missing parameters are reported with different messages. */
  lemma MessagesDistinct(p: Parameter, q: Parameter)
    ensures p.Message() == q.Message() ==> p == q
  {
    assert p.Message()[20] == p.Name()[0];
    assert q.Message()[20] == q.Name()[0];
  }

  const CheckOrder: seq<Parameter> := [ConversationStateParam, UserStateParam, BotConfigParam]

  /** The parameters that were supplied. */
  function Supplied(hasConversationState: bool, hasUserState: bool, hasBotConfig: bool): set<Parameter> {
    (if hasConversationState then {ConversationStateParam} else {})
      + (if hasUserState then {UserStateParam} else {})
      + (if hasBotConfig then {BotConfigParam} else {})
  }

  /** The first parameter of `order` that was not supplied, if any: the one the
      constructor reports. */
  function FirstMissing(order: seq<Parameter>, given: set<Parameter>): (missing: Option<Parameter>)
    ensures missing.None? <==> forall i :: 0 <= i < |order| ==> order[i] in given
    ensures missing.Some? ==>
      exists k :: 0 <= k < |order| && order[k] == missing.value && missing.value !in given
        && forall i :: 0 <= i < k ==> order[i] in given
  {
    if order == [] then None
    else if order[0] !in given then Some(order[0])
    else
      var missing := FirstMissing(order[1..], given);
      assert forall i :: 0 < i < |order| ==> order[i] == order[1..][i - 1];
      missing
  }

  /** The constructor rejects a missing `conversationState` first, then a missing
      `userState`, then a missing `botConfig`. */
  lemma ParametersCheckedInOrder(hasConversationState: bool, hasUserState: bool, hasBotConfig: bool)
    ensures FirstMissing(CheckOrder, Supplied(hasConversationState, hasUserState, hasBotConfig)) ==
      if !hasConversationState then Some(ConversationStateParam)
      else if !hasUserState then Some(UserStateParam)
      else if !hasBotConfig then Some(BotConfigParam)
      else None
  {
    var given := Supplied(hasConversationState, hasUserState, hasBotConfig);
    assert ConversationStateParam in given <==> hasConversationState;
    assert UserStateParam in given <==> hasUserState;
    assert BotConfigParam in given <==> hasBotConfig;
    var tail := CheckOrder[1..];
    assert tail == [UserStateParam, BotConfigParam];
    assert tail[1..] == [BotConfigParam];
    assert tail[1..][1..] == [];
    assert FirstMissing(tail[1..], given) ==
      if !hasBotConfig then Some(BotConfigParam) else FirstMissing(tail[1..][1..], given);
    assert FirstMissing(tail, given) ==
      if !hasUserState then Some(UserStateParam) else FirstMissing(tail[1..], given);
    assert FirstMissing(CheckOrder, given) ==
      if !hasConversationState then Some(ConversationStateParam) else FirstMissing(tail, given);
  }

  /** Conversation-scoped state; the bot only checks that it is supplied. */
  class ConversationState {}

  /** The contents of the `.bot` file; the bot only checks that it is supplied. */
  class BotConfiguration {}

  /** User-scoped state, with the `firstTime` property the bot sets on it and a count of
      the calls to `saveChanges`. */
  class UserState {
    /** `properties.firstTime`: unset (`null` or `undefined`) until set by a turn. */
    var firstTime: Option<bool>
    var saveCount: nat

    constructor()
      ensures firstTime == None && saveCount == 0
    {
      firstTime := None;
      saveCount := 0;
    }

    /** `saveChanges(context)`: persists the state at this point of the turn. */
    method SaveChanges(context: TurnContext)
      modifies this, context
      ensures firstTime == old(firstTime)
      ensures saveCount == old(saveCount) + 1
      ensures context.trace == old(context.trace) + [Saved]
    {
      saveCount := saveCount + 1;
      context.trace := context.trace + [Saved];
    }
  }

  /** The turn context: the incoming activity and the record of the turn's outward
      effects (the replies sent and the save) in the order they happen. */
  class TurnContext {
    const activity: Activity
    var trace: seq<Effect>

    constructor(activity: Activity)
      ensures this.activity == activity && trace == []
    {
      this.activity := activity;
      trace := [];
    }

    /** `sendActivity(reply)`. */
    method SendActivity(reply: Reply)
      modifies this
      ensures trace == old(trace) + [Sent(reply)]
    {
      trace := trace + [Sent(reply)];
    }
  }

  class MyBot {
    const userState: UserState

    /** The part of the constructor that runs once every parameter is present: only the
        user state is kept. */
    constructor(userState: UserState)
      ensures this.userState == userState
    {
      this.userState := userState;
    }

    /** `new MyBot(conversationState, userState, botConfig)`: throws for the first missing
        parameter, and otherwise gives a new bot that keeps `userState`. */
    static method Create(conversationState: ConversationState?, userState: UserState?,
                         botConfig: BotConfiguration?) returns (r: Result<MyBot, string>)
      ensures var missing := FirstMissing(CheckOrder,
                Supplied(conversationState != null, userState != null, botConfig != null));
        && (r.Failure? <==> missing.Some?)
        && (r.Failure? ==> r.error == missing.value.Message())
      ensures r.Success? ==> fresh(r.value) && r.value.userState == userState
    {
      ParametersCheckedInOrder(conversationState != null, userState != null, botConfig != null);
      if conversationState == null {
        return Failure(ConversationStateParam.Message());
      }
      if userState == null {
        return Failure(UserStateParam.Message());
      }
      if botConfig == null {
        return Failure(BotConfigParam.Message());
      }
      var bot := new MyBot(userState);
      return Success(bot);
    }

    /** `onTurn(context)`: sends the replies of the turn in order, updates `firstTime`,
        and saves the user state once, last. */
    method OnTurn(context: TurnContext)
      requires HasText(context.activity)
      modifies context, userState
      ensures context.trace == old(context.trace) + TurnEffects(context.activity, old(userState.firstTime))
      ensures userState.firstTime == TurnOutcome(context.activity, old(userState.firstTime)).firstTime
      ensures userState.saveCount == old(userState.saveCount) + 1
    {
      var name := Split(context.activity.fromName, ' ');
      ghost var replies := TurnOutcome(context.activity, old(userState.firstTime)).replies;
      if context.activity.kind == Message {
        var request := Lower(context.activity.text.value);
        var key := Lower(request);
        if key == "q" {
          context.SendActivity(TextReply(QueueCountText));
        } else if key == "d" {
          context.SendActivity(TextReply(QueueDetailsText));
        } else if key == "w" {
          context.SendActivity(CardReply(Welcome(WelcomeGreeting(name[0]))));
        } else {
          context.SendActivity(TextReply(NotUnderstoodText(name[0])));
          context.SendActivity(CardReply(Menu));
        }
      } else if userState.firstTime.None? {
        userState.firstTime := Some(false);
        context.SendActivity(CardReply(Welcome(WelcomeGreeting(name[0]))));
      }
      assert context.trace == old(context.trace) + SendAll(replies) by {
        if |replies| > 0 {
          assert SendAll(replies) == [Sent(replies[0])] + SendAll(replies[1..]);
          if |replies| > 1 {
            assert SendAll(replies[1..]) == [Sent(replies[1])] + SendAll(replies[2..]);
          }
        }
      }
      userState.SaveChanges(context);
    }
  }
}
