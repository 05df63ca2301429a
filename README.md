# qi-bot turn dispatcher, modelled in Dafny

This project models `MyBot`, the bot class of qi-bot (`bot.js`). It covers two things.

- **Construction.** The constructor checks `conversationState`, `userState` and `botConfig`, in that order. It throws for the first one that is missing and otherwise keeps only `userState`.
- **One turn (`onTurn`).** The sender's first name is the part of `from.name` before the first space.
  - A message's text is lower-cased and looked up in a fixed command table: `q`, `d` and `w`. `q` and `d` get a fixed text reply. `w` gets a welcome card greeting the sender by first name. Any other text gets a "Sorry" text followed by the menu card.
  - Any other activity sends the welcome card once, the first time: when the user state's `firstTime` property is unset, it is set to `false`.
  - Every turn ends with one `saveChanges` call.

Files:

- `common.dfy` (module `Common`): `Option` for `null`/`undefined`, and `Result` for a call that throws.
- `text.dfy` (module `Text`): ASCII `toLowerCase`, `split` with a one-character separator (with its inverse `Join`), and the first name.
- `dispatch.dfy` (module `Dispatch`): one turn as values. `TurnOutcome` gives the replies in order and the new `firstTime`. `TurnEffects` gives the turn's outward effects, the replies and then the save. The contracts and lemmas cover the command table, the one-time welcome over any series of turns, and the single final save.
- `bot.dfy` (module `Bot`): the objects. `UserState` holds `firstTime` and a count of `saveChanges` calls. `TurnContext` holds the activity and an ordered trace of the turn's effects. `MyBot` has `Create` (the checking constructor) and `OnTurn`. `OnTurn`'s postcondition ties the new trace and the new flag to `TurnEffects` and `TurnOutcome`.

Notes on `bot.js`:

- Only the message type is told apart. Every other activity type takes the one-time welcome branch, whatever members it adds.
- `firstTime` is written as `this.userState.properties.firstTime`, a property of the `properties` object of the bot's one `userState`, not a per-user record. The model keeps it as a field of that object. So "once" means once per `UserState` object, and that is what `Dispatch.WelcomedAtMostOnce` states.

## Model

| member | source | states |
|---|---|---|
| `Bot.FirstMissing` | bot.js:21-23 | the reported parameter is missing and every parameter checked before it was supplied; nothing is reported exactly when all are supplied |
| `Bot.ParametersCheckedInOrder` | bot.js:21-23 | a missing `conversationState` is reported first, then a missing `userState`, then a missing `botConfig` |
| `Bot.MessagesDistinct` | bot.js:21-23 | the error messages `Missing parameter.  <name> is required` of different parameters differ, so a message identifies the missing parameter |
| `Bot.MyBot.Create` | bot.js:20-25 | construction fails exactly when a parameter is missing, with the error message of the first missing one in check order; on success the new bot keeps the given `userState` |
| `Bot.MyBot.constructor` | bot.js:24 | the bot stores only the user state |
| `Bot.MyBot.OnTurn` | bot.js:33-66 | the context's trace grows by exactly the turn's replies in order followed by one save, the flag becomes the turn's new flag, and the save count grows by one |
| `Bot.UserState.SaveChanges` | bot.js:65 | one save is recorded after everything sent so far, and `firstTime` is unchanged |
| `Bot.TurnContext.SendActivity` | bot.js:42-62 | each send appends exactly one reply to the turn's trace |
| `Text.Lower` | bot.js:36 | lower-casing keeps the length, folds each character on its own, and leaves no upper-case letter |
| `Text.LowerIdempotent` | bot.js:36-39 | lower-casing the already lower-cased request again changes nothing |
| `Text.LowerIsLetter` | bot.js:39-48 | a text lower-cases to a one-letter key exactly when it is that letter in lower or upper case |
| `Text.Split` | bot.js:34 | split yields at least one piece, no piece holds the separator, and the first piece is the prefix up to the first separator |
| `Text.JoinSplit` | bot.js:34 | joining the pieces of a split with the separator gives back the name |
| `Text.SplitJoin` | bot.js:34 | splitting the join of separator-free pieces gives back the pieces |
| `Text.FirstName` | bot.js:34 | the first name is a prefix of the name, has no space, and is followed by a space unless it is the whole name |
| `Text.FirstNameUnique` | bot.js:34 | any prefix with no space that ends at a space or at the end of the name is the first name |
| `Text.FirstNameCases` | bot.js:34 | a name without a space is its own first name; a name starting with a space has the empty first name |
| `Dispatch.CommandOf` | bot.js:36-39 | after lower-casing twice, the `q`, `d` and `w` cases match the text in either case and nothing else; every other text falls to the default case |
| `Dispatch.MessageReplies` | bot.js:40-57 | `q`/`Q` gives only the queue-count text, `d`/`D` only the queue-details text, `w`/`W` only the welcome card greeting the first name, any other text the "Sorry" text and then the menu card |
| `Dispatch.TurnOutcome` | bot.js:34-63 | after a turn the flag is unset only if it was unset and the turn was a message; a set flag never changes; a turn sends nothing exactly when it is not a message and the flag was already set |
| `Dispatch.MessageTurn` | bot.js:35-57 | `q` or `Q` sends only the queue-count text, `d` or `D` only the queue-details text, `w` or `W` only the welcome card greeting the first name, and any other text sends the "Sorry" text and then the menu card; a message turn neither depends on nor changes `firstTime` |
| `Dispatch.NonMessageTurn` | bot.js:58-63 | a non-message turn with `firstTime` unset sends exactly one welcome card and sets the flag to `false`; with the flag set it sends nothing and keeps the flag |
| `Dispatch.WelcomedAtMostOnce` | bot.js:58-63 | over any series of turns, the unprompted welcome is sent once if the flag starts unset and some turn is not a message, and never otherwise; the flag ends `false` in the first case and unchanged otherwise |
| `Dispatch.TurnEffects` | bot.js:33-66 | every turn's effects contain exactly one save, it comes last, and the replies before it are the turn's replies |

## Left out

- The Bot Framework library (`ActivityTypes`, `CardFactory.adaptiveCard`, `sendActivity`, `saveChanges`) is foreign code. Activity types are an enumeration, cards are tags, a send appends to the turn's trace, and a save appends a save marker and bumps a counter.
- The welcome and menu templates (`dialogs/welcome`, `dialogs/menu`) are not part of this model. Of the welcome card, only the greeting written into its first body element is kept.
- The source writes the greeting into the shared welcome template object before sending it. The model records the card as a value at the time of sending, so it does not capture the template keeping the last greeting, or any aliasing between turns.
- `Bot.TurnContext.SendActivity`: sends are assumed to succeed. In the source a rejected `sendActivity` ends `onTurn` before `saveChanges`, so that turn saves nothing; `Dispatch.TurnEffects` and `Bot.MyBot.OnTurn` describe turns whose sends succeed.
- `async`/`await` and real persistence: turns are handled one at a time, and a save is only counted and placed in the trace.
- `Text.Lower`: does not model full Unicode `toLowerCase` (which can change a text's length); only ASCII letters are folded. No other character lower-cases to `q`, `d` or `w` under ASCII folding, so the command table is unaffected for ASCII text.
- `Bot.MyBot.Create`: a missing parameter is a null reference. JavaScript's other falsy values (`0`, `""`, `false`) are not modelled as parameters.
- `Bot.MyBot.OnTurn`: requires the message text to be present; the runtime error JavaScript raises when `text` or `from.name` is absent is not modelled (the sender's name is a required field of the activity).
