# A live word-guessing game, modelled in Dafny

The system is a Wordle-style game driven by a live stream. Viewers type guesses into the stream chat. The first viewers to find the five-letter target word win the round and are scored by how fast they solved it. The scores go into a leaderboard that lasts across rounds. Gifts with a diamond value increase a room total and queue on-screen alerts. A small server-side limiter refuses connections from an IP that holds too many sockets or connects too often.

This project models three parts of the system:

- the round engine of `components/WordleGame.tsx`;
- the session logic of `App.tsx`;
- the per-IP limiter of `limiter.js`.

Each is modelled as pure functions over immutable records. Every React handler and every timer firing becomes one step function. The properties the code promises are proved about those functions.

Modules, one file each:

- `types.dfy` (`Types`): the entities of `types.ts` and the constants of `constants.ts` and `WordleGame.tsx`.
- `text.dfy` (`Text`): the JavaScript string operations the code relies on. These are `trim`, `split(sep)[0]`, ASCII `toLowerCase`/`toUpperCase`, and `replace` with a string pattern, which replaces only the first occurrence.
- `sums.dfy` (`Sums`): sums over sequences.
- `stable_sort.dfy` (`StableSort`): a stable sort by an integer key, the sort that `Array.prototype.sort` guarantees. It proves the sort is a permutation, is ordered and is stable. It also proves that the stable ordering is unique.
- `scoring.dfy` (`Scoring`): the time-decay win score.
- `evaluator.dfy` (`Evaluator`): the two-pass tile colouring. It is given twice:
  - a closed-form function `Tiles`;
  - the imperative two-loop method `EvaluateGuess`, proved equal to `Tiles`.
- `round.dfy` (`Round`): the game state, `handleGuess`, the round lifecycle and its timers.
- `leaderboard.dfy` (`Leaderboard`): `handleScoresCalculated` and the `!rank` lookup.
- `alerts.dfy` (`Alerts`): the FIFO gift-alert queue.
- `commands.dfy` (`Commands`): the chat-command dispatcher.
- `connection.dfy` (`Connection`): the `sim_` prefix on connect ids.
- `session.dfy` (`Session`): the application state and its events. These are chat, gifts, the alert timer, connect, reconnect, disconnect, the feed's `tiktokConnected` and the game's own events. A game step that reports winners is merged into the leaderboard.
- `limiter.dfy` (`Limiter`): `clientBlocked`, the per-IP connection counts, `getSocketIp` and the once-a-minute reset.

Inputs the code takes from its environment become explicit parameters:

- `Date.now()` is a millisecond parameter `now`.
- `Math.random()` is a natural-number parameter `pick`. The word chosen is `pick % |words|`.
- The list of open sockets is a sequence of handshakes. Each handshake holds the optional `x-forwarded-for` header and the optional peer address.

## Behaviour of the code worth knowing

- **Tile colours for repeated letters.** `LOLLY` against `ALLOW` gives `[present, present, correct, absent, absent]`. The exact match at index 2 is taken first, and the first two letters use up the `L` and the `O` that are left (`Evaluator.DuplicateLetterExample`).
- **`GRAPE` against `CRANE`** gives `[absent, correct, correct, absent, correct]`, since `E` is the fifth letter of both words (`Evaluator.CraneExample`).
- **The winner cap** is the constant 3 (`WordleGame.tsx:189`). The third winner solves the round (`Round.Win`).
- **Diamond counting.** A gift event that does not end its combo adds `diamondCount × repeatCount`, and the event that ends the combo adds nothing. A combo of `n` events therefore adds `diamondCount × (1 + 2 + … + n)` (`Session.ComboCountsEveryRunningTotal`).
- **Double credit.** The round countdown keeps running when a third winner solves the round. When it reaches zero, the state becomes `round_over` whatever it was, and the winners are reported a second time. Every winner is therefore credited twice (`Session.SolvedRoundCreditedTwice`).
- **`!next` throws.** `!next` calls `startNextWord`, which the game component does not expose. While the game page is shown, the call throws a `TypeError` after the message has been pushed onto the chat history. While it is not shown, the optional call does nothing. Either way only the chat history changes (`Session.HandleChat`).
- **`!next now` is a guess.** Only the exact trimmed, lower-cased comment counts as a command, so `!next now` is sent to the game as the guess `!NEXT` (`Commands.CommandWithTrailingWordIsAGuess`).
- **The game lives on the game page.** The game page is shown from the first `tiktokConnected` after a connect until the next disconnect. A disconnect unmounts the game and clears its timers. The next `tiktokConnected` mounts a fresh idle game. While no game is shown, guesses and `!skip` change only the chat history (`Session.HandleDisconnect`, `Session.HandleFeedConnected`, `Session.NewStreamStartsAfresh`).

## Model

| member | source | states |
|---|---|---|
| Evaluator.Tiles | components/WordleGame.tsx:198-220 | Tile i carries guess[i]. It is `correct` exactly when guess[i] equals target[i]. Every other tile is `present` or `absent`, so no `pending` tile is left. |
| Evaluator.EvaluateGuess | components/WordleGame.tsx:198-220 | The two loops of the code compute exactly `Tiles`: an exact-match pass that marks the target, then a pass that consumes the leftmost unconsumed copy. |
| Evaluator.HitsAreCommonLetters | components/WordleGame.tsx:199-219 | The letters of the `correct` and `present` tiles, as a multiset, are the multiset intersection of guess and target. So no letter is marked more often than the target holds it. |
| Evaluator.AbsentMeansExhausted | components/WordleGame.tsx:210-219 | A tile is `absent` only when every copy of its letter in the target is already matched by another tile. |
| Evaluator.PresentIsLeftmost | components/WordleGame.tsx:210-220 | Repeated letters are coloured left to right. If a later non-exact copy is `present`, every earlier non-exact copy of the same letter is `present` too. |
| Evaluator.DuplicateLetterExample | components/WordleGame.tsx:198-220 | `LOLLY` against `ALLOW` gives present, present, correct, absent, absent. |
| Evaluator.CraneExample | components/WordleGame.tsx:198-220 | `GRAPE` against `CRANE` gives absent, correct, correct, absent, correct. |
| Scoring.WinScore | components/WordleGame.tsx:182-183 | The score is the floor of max(0, 500 − 2·seconds), written in whole milliseconds. It is never negative, at most 500, 500 at zero time and 0 from 250 s on. |
| Scoring.WinScoreNonIncreasing | components/WordleGame.tsx:182-183 | A later win never scores more. |
| Scoring.WinScorePerSecond | components/WordleGame.tsx:182-183 | Each further second costs exactly `DECAY_RATE` points while the score stays positive. |
| Round.GuessScore | components/WordleGame.tsx:146-152 | The hint score is at most 2 per tile. It reaches that maximum exactly when every tile is `correct`. |
| Round.WinRowIsEvaluation | components/WordleGame.tsx:178 | The all-`correct` row a win adds is what the evaluator gives for the target against itself. |
| Round.StartRound | components/WordleGame.tsx:58-94 | An empty word list changes nothing. Otherwise the round runs with a target from the list and no rows, winners or hint. The countdown is 300 s and scheduled, the start time is `now`, and the restart countdown is cancelled. |
| Round.LoadWords | components/WordleGame.tsx:45-50 | The loaded list is the input uppercased. An idle game starts its first round exactly when the list is non-empty. |
| Round.HandleGuess | components/WordleGame.tsx:155-231 | With no word list, a state other than running, a length other than 5 or a guess outside `^[A-Z]+$`, nothing changes. A word outside the dictionary only shows a toast. The target is a win; any other word is a miss. |
| Round.Win | components/WordleGame.tsx:169-194 | A viewer who has already won gets only a toast. Otherwise one all-`correct` row, one guesser and one winner are added, and the winners are re-sorted by duration. The round is solved and the winners are reported exactly when at least 3 have won. Nothing else changes. |
| Round.Miss | components/WordleGame.tsx:198-228 | Exactly one evaluated row and one guesser are prepended. The hint is replaced exactly when there is none or the new score is strictly higher, so ties keep the earlier guess. |
| Round.WinSortsWinners | components/WordleGame.tsx:186 | The new winner list holds the old winners plus the new one. Winners with equal durations keep their arrival order, and userIds stay unique. |
| Round.WinKeepsRanking | components/WordleGame.tsx:170-192 | A win keeps the winners unique by userId, ordered by duration and at most 3, with fewer than 3 while the round runs. |
| Round.WinnerIdsStayUnique | components/WordleGame.tsx:171-176 | A correct guess from a viewer already among the winners leaves the winners unchanged. |
| Round.Tick | components/WordleGame.tsx:84-93 | Each tick takes one second off the countdown. At 1 s or less it moves any state to `round_over` at 0 and schedules the restart countdown. It reports the winners exactly when there are any. |
| Round.Dwell | components/WordleGame.tsx:134-143 | `solved` becomes `leaderboard`, `leaderboard` becomes `waiting`, and other states are left alone. |
| Round.Restart | components/WordleGame.tsx:109-119 | The restart countdown counts down. At 1 s or less it starts a new round and resets itself to 10 s. |
| Round.ForceEndRound | components/WordleGame.tsx:233-238 | A running round is solved at once and reports its winners, possibly none. In any other state nothing happens. |
| Round.NextKeepsInv | components/WordleGame.tsx:58-238 | Every event keeps the engine invariant: unique winners ordered by duration, at most 3 winners, one guesser per five-tile row, timers live exactly in the states that schedule them, and the countdown within 0..300. |
| Round.CountdownRunsOut | components/WordleGame.tsx:84-93 | A live countdown with t seconds left counts down for t−1 ticks and then reaches `round_over` at tick t. |
| Round.FreshRoundLastsItsDuration | components/WordleGame.tsx:80-93 | A new round is still running after 299 ticks and is over after 300. |
| Round.SolvingWin | components/WordleGame.tsx:84-93 | A win that solves the round reports its winners and leaves the countdown running. |
| Round.LastTickReports | components/WordleGame.tsx:84-107 | A live countdown with winners reaches `round_over` and reports those winners on its last tick, whatever the state. |
| StableSort.SortBy | App.tsx:160 | The sorted sequence is a permutation of its input and is ordered by key. |
| StableSort.SortByIsStable | App.tsx:160 | Elements with equal keys keep their relative order. |
| StableSort.SortByIsTheStableSort | App.tsx:160 | Any ordered arrangement that keeps every key's elements in input order is exactly `SortBy`'s result. |
| Leaderboard.FindUser | App.tsx:153 | The index of the first entry with the userId, or −1 when there is none. |
| Leaderboard.Merge | App.tsx:149-162 | The result is sorted by descending score, with ties in pre-sort order. Each userId's total grows by exactly its winnings, the overall total grows by the sum of the winners' scores, the ids are the old ids plus the winners', and unique ids stay unique. |
| Leaderboard.UnnamedEntriesUnchanged | App.tsx:152-159 | A user who is not among the winners keeps their total and their presence on the board. |
| Leaderboard.MergeTwiceIsMergeOfBoth | App.tsx:149-162 | Merging two reports one after the other credits every user the same as merging them together. |
| Leaderboard.Rank | App.tsx:70-73 | The 1-based position of the user's first entry and its score. None exactly when the user is absent. With unique ids the score is the user's total. |
| Commands.Dispatch | App.tsx:57-80 | Only the exact comments `!next`, `!skip` and `!rank` are commands. Anything else is a guess made of the uppercased text before the first space. |
| Commands.PlainWordIsGuessed | App.tsx:55-81 | A word of letters, with any whitespace on either side, is guessed uppercased. |
| Commands.TrailingWordsMakeAGuess | App.tsx:55-81 | A comment whose trimmed text has more than one space-separated word is guessed by its first word, uppercased, even when that word is a command. Letter case and surrounding whitespace do not matter. |
| Commands.CommandWithTrailingWordIsAGuess | App.tsx:55-81 | `!next now` is the guess `!NEXT`. |
| Commands.CommandsIgnoreCaseAndPadding | App.tsx:55-62 | ` !SKIP` followed by a newline is the `!skip` command. |
| Session.HandleChat | App.tsx:53-82 | Every message is pushed onto the chat history. `!next` changes nothing else. `!rank` only shows the reply. `!skip` touches only the game and the leaderboard. While the game is shown, a guess is the game's step with its report merged into the leaderboard. While it is not shown, guesses and `!skip` change nothing but the chat history. |
| Session.SkipNeedsModerator | App.tsx:62-67 | `!skip` solves the round and merges its winners exactly when a moderator sends it during a running round of a shown game. Otherwise game and leaderboard stay the same. |
| Session.RankReply | App.tsx:69-77 | The reply is not-found, naming the sender, exactly when the sender's userId has no entry. Otherwise it gives the 1-based index of the first entry with that id, that entry's nickname and its score. |
| Session.Push | App.tsx:54 | The newest item goes first, followed by the newest earlier items up to the cap. |
| Session.HistoryKeepsNewest | App.tsx:54 | After any run of messages the history holds the newest ones, newest first, up to the cap. |
| Session.FirstTruthy | App.tsx:85 | The picture URL is the first non-empty candidate, or the empty string exactly when there is none. |
| Session.HandleGift | App.tsx:84-109 | The diamond total grows by diamondCount × repeatCount exactly for events with diamonds that do not end their combo. Every event is pushed onto the gift history. Events with diamonds join the end of the alert queue whether or not they end a combo. Nothing else changes. |
| Session.AlertExpired | App.tsx:173-181 | When the visible alert's timer fires, the next waiting gift takes its place in order. |
| Session.ComboCountsEveryRunningTotal | App.tsx:101-103 | A combo of n events adds diamondCount × n(n+1)/2, and the event that ends it adds nothing. |
| Session.HandleConnect | App.tsx:117-133 | An empty id only shows a toast. Otherwise the feed is opened on the id, `sim_`-prefixed in simulation mode. Chat, gifts, room statistics and leaderboard start over. The game, and whether it is shown, are untouched. |
| Session.HandleReconnect | App.tsx:135-140 | With a last id, the feed is reopened on it and the id is shown with its first `sim_` removed. Without one, nothing happens. |
| Session.HandleDisconnect | App.tsx:142-147 | The feed is closed, the last id is forgotten and the game page is closed. Closing it discards the game, which is back to the initial idle game. Nothing else changes. |
| Session.HandleFeedConnected | App.tsx:184-188 | The game page is shown and the notice says connected. A game already shown is kept. Otherwise a fresh idle game starts. Nothing else changes. |
| Session.NewStreamStartsAfresh | App.tsx:117-188 | After a disconnect, a connect to a stream and its `tiktokConnected`, the shown game is a fresh idle game and the leaderboard is empty. A countdown firing of that game then credits nobody. |
| Session.ReconnectRepeatsConnect | App.tsx:117-140 | A reconnect after a connect reopens the same feed. It names the id that was typed, in simulation mode or when that id contains no `sim_`. |
| Session.NoReconnectAfterDisconnect | App.tsx:135-147 | After a disconnect, reconnecting does nothing. |
| Session.NextKeepsInv | App.tsx:53-181 | Every event keeps the session invariant: the engine invariant, unique leaderboard ids in descending score order, histories within 100 and 50, a settled alert queue, and a game that is not shown being the initial idle game. |
| Session.SolvedRoundCreditedTwice | components/WordleGame.tsx:84-107 | A chat guess that solves the round, followed by the countdown running out, credits every user twice their winnings. |
| Alerts.Pump | App.tsx:164-171 | With no alert visible the head of the queue is shown. The order of gifts still to show is unchanged. |
| Alerts.Enqueue | App.tsx:106-108 | A gift with diamonds goes to the end of the gifts still to show. Any other gift changes nothing. |
| Alerts.Expire | App.tsx:173-181 | The visible alert leaves and the rest keep their order. |
| Alerts.GiftsShownInOrder | App.tsx:164-181 | After k expiries the k-th gift that was waiting is on screen, and the rest follow in order. |
| Connection.ConnectId | App.tsx:123 | In simulation mode the id is `sim_` followed by the typed id. Otherwise it is the typed id. |
| Connection.ReconnectShowsTypedName | App.tsx:123-137 | Removing the first `sim_` recovers the typed id, in simulation mode or when the typed id contains no `sim_`. |
| Connection.RealNameWithSimInsideIsMangled | App.tsx:137 | A real id containing `sim_` is shown without it: `jasim_1` is shown as `ja1`. |
| Limiter.SocketIp | limiter.js:56-65 | With a string `x-forwarded-for`, the IP is its first comma-separated entry, trimmed, with no comma left. Otherwise it is the peer address. |
| Limiter.ConnectionCounts | limiter.js:39-54 | An IP has a count exactly when it is non-empty and some socket has it. The count is the number of sockets with that IP. |
| Limiter.Connections | limiter.js:21 | The connection count of an IP is its number of sockets, and 0 for the empty IP. |
| Limiter.ClientBlocked | limiter.js:12-37 | Without a string IP nothing is blocked and no counter changes. Otherwise the IP's counter, and only that counter, goes up by one. The call is blocked exactly when the IP has more than 10 sockets or made more than 5 earlier requests. |
| Limiter.AttemptsAreCounted | limiter.js:8-24 | After n attempts in a fresh window, blocked or not, the IP's counter is n. |
| Limiter.SeventhAttemptIsRefused | limiter.js:5-34 | With at most 10 sockets, the first six attempts in a window pass and every later one is refused. |
| Limiter.ForwardedChainUsesFirstHop | limiter.js:58-60 | The header ` 1.2.3.4 , 10.0.0.1` gives the IP `1.2.3.4`. |

## Left out

- Rendering and the UI: all JSX, `formatTime`, the overlays, and the presentation-only components and pages.
- Transport and I/O:
  - the socket plumbing of `server.js` and `tiktokSocket.ts`;
  - the word-list fetch, which is modelled only as the `WordsLoaded` event carrying the words;
  - console logging.
- `localization.ts`: the wording of toasts and connection messages. Toasts and notices are datatypes that carry their data.
- `components/WinnerCountSetting.tsx` and `components/ConnectForm.tsx`. The game never reads the first. The second only strips a leading `@`.
- `handleLike` and the room-user, `tiktokDisconnected` and stream-end handlers. They only set display state: the like and viewer counts and the connection notice.
- The mobile tabs of `pages/GamePage.tsx`. On narrow screens they also unmount the game when another tab is chosen. The model shows the game for as long as the game page is shown.
- Timer scheduling of the toasts, including the 45-second info toast and the auto-hide of toasts.
- React effect scheduling and batching. Each handler or timer firing is one atomic step. The `isProcessing` flag is set and cleared within one synchronous handler, so it is not modelled.
- Scoring.WinScore: durations are whole milliseconds, not floating-point seconds. The score equals the code's `Math.floor` result up to float rounding.
- Round.Win: a winner's duration is kept in milliseconds, not seconds, which gives the same order.
- Text.Lower and Text.Upper: only ASCII letters change case. JavaScript's full Unicode case mapping is not modelled.
- Limiter.ClientBlocked: request and connection counts are true maps. JavaScript object keys that collide with `Object.prototype` members are not modelled. The once-a-minute reset is the empty map `FreshWindow`, which is where every window starts.
- Leaderboard.Merge: the code adds to entries of a shallow copy. Those entry objects are shared with the previous leaderboard, and that aliasing is not modelled.
- Commands.Dispatch: `!next` is modelled only as a dispatch outcome. The method it calls does not exist on the game component. With the game shown, the call throws a `TypeError` after the chat push. The model keeps the chat push and changes nothing else, and it does not model the exception.
- Round.Dwell: the event stands for the 5-second timer of `solved` and the 10-second timer of `leaderboard`. The model does not count those seconds, so it promises nothing about when the event fires.
- Session.AlertExpired: the event stands for the 5-second display timer of a gift alert. Its timing is not constrained.
