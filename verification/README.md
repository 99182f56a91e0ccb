# Captrivia — a Dafny model of the game flow

Captrivia is a trivia game. A React client lets a player start a single-player or
multiplayer game, join one by its ID, answer the questions and see the final score.
A Go backend keeps the games in memory, scores the answers, and runs one WebSocket
"room" per multiplayer game for the countdown, the join notices and the score table.

This project models both halves as pure state transitions:

- **Client storage and provider** (`LocalStorage`, `GamesProvider`). `localStorage` is a
  map from keys to strings. JSON is an abstract codec (`Json.Codec`) whose round trip is
  a hypothesis (`Json.Lawful`) that only lemmas assume. The provider keeps a copy in
  memory (`Registry.memory`) and a durable copy (`Registry.store`). `Agree` says the two match.
- **Client socket wrapper** (`Socket`). It covers the listener table of the event emitter,
  the frame that `emit` sends, and how an inbound frame is decoded and dispatched. That
  includes the "error" event that throws when nobody listens.
- **Client pages** (`HomePage`, `JoinPage`, `GamePage`, `FinishPage`, `PlayerScores`). Each
  handler is a function from the page state to a new state plus a list of `Effect`s
  (navigate, notify, API calls, socket operations). An awaited API call is split into the
  part before the `await` and a `…Settled` function that takes the reply as a parameter.
- **Backend** (`SessionStoreOps`, `GameServerModel`, `AnswerController`, `GameController`,
  `QuestionController`). The handlers return `Response<T>`: `Success`, `Failure(status, error)`,
  or `Panic` for a Go runtime panic, which gin's recovery turns into a bare 500.
- **Hub** (`Hub`, `HubNotify`). Rooms, a log of sends (each client's inbox is read off it),
  closed channels, and a `crashed` flag for a panic inside the hub's goroutine. The
  non-blocking sends of `HandleMessage` evict a client whose buffer is full. Which sends
  succeed is a parameter `accept`.
- **Wire agreement** (`Protocol`). The message kinds the hub sends are the event names the
  client defines. A countdown tick's text reads back on the page as the number sent.

Go's random map order and `rand.Shuffle` draws are parameters: an `order` that enumerates
the session keys, and `draws` with `draws[i]` in `[0, i]`. Properties that should not
depend on them are proved for every choice.

## Model

| member | source | states |
|---|---|---|
| Decimal.Itoa | backend/controllers/hub.go:28 | `strconv.Itoa`: non-empty text that starts with '-' exactly for negative numbers; digits only otherwise |
| Decimal.ToNumber | frontend/src/pages/Game.tsx:122 | `Number()` on optionally signed digit text: the empty text is 0, a leading '-' gives a value of at most 0, unsigned text a value of at least 0. Text that ends in a non-digit, or starts with a character that is neither a digit nor a sign, is NaN |
| Decimal.NumberOfItoa | frontend/src/pages/Game.tsx:122 | `Number()` applied to the decimal text of any integer gives that integer back |
| LocalStorage.DecodeEncodeSessions | frontend/src/utils/localStorage.ts:28-33 | decoding the JSON value written for a list of sessions gives the same list |
| LocalStorage.GetGames | frontend/src/utils/localStorage.ts:10-18 | text that does not parse reads as the empty list |
| LocalStorage.MissingGamesReadEmpty | frontend/src/utils/localStorage.ts:10-18 | a missing "games" key reads as the empty list (`null \|\| []`) |
| LocalStorage.StoredGamesReadBack | frontend/src/utils/localStorage.ts:10-18 | whatever list was stored under "games" is read back unchanged |
| LocalStorage.GetCurrent | frontend/src/utils/localStorage.ts:64-72 | text that does not parse reads as no current game |
| LocalStorage.MissingCurrentReadsNone | frontend/src/utils/localStorage.ts:64-72 | a missing "currentGame" key reads as no current game |
| LocalStorage.SetCurrent | frontend/src/utils/localStorage.ts:81-83 | writes the "currentGame" key and leaves every other key as it was |
| LocalStorage.SetThenGetCurrent | frontend/src/utils/localStorage.ts:64-83 | reading the current game right after setting it returns that game |
| LocalStorage.UpdateGames | frontend/src/utils/localStorage.ts:28-33 | the returned list is the old list with the game appended; only "games" changes |
| LocalStorage.UpdateGamesStoresResult | frontend/src/utils/localStorage.ts:28-33 | the stored list and the returned list are the same |
| LocalStorage.UpdateGamesKeepsDuplicates | frontend/src/utils/localStorage.ts:28-33 | storing the same session twice keeps two copies, since there is no de-duplication |
| LocalStorage.Without | frontend/src/utils/localStorage.ts:45 | the filter never grows the list |
| LocalStorage.WithoutKeeps | frontend/src/utils/localStorage.ts:45 | the filter keeps exactly the sessions of other games |
| LocalStorage.WithoutConcat | frontend/src/utils/localStorage.ts:45 | filtering distributes over concatenation, so order is kept |
| LocalStorage.WithoutAbsent | frontend/src/utils/localStorage.ts:45 | filtering out a game that is not in the list returns the list unchanged |
| LocalStorage.DeleteGame | frontend/src/utils/localStorage.ts:43-55 | returns the filtered list. "currentGame" is removed exactly when it is a session of that game. Other keys are untouched |
| LocalStorage.DeleteGameStoresResult | frontend/src/utils/localStorage.ts:43-55 | the stored list and the returned list are the same |
| LocalStorage.DeleteAbsentKeepsList | frontend/src/utils/localStorage.ts:43-55 | deleting a game with no stored session leaves the stored list as it was |
| GamesProvider.Init | frontend/src/providers/games.tsx:41-44 | the provider starts from what storage holds, so memory and storage agree |
| GamesProvider.StartGame | frontend/src/providers/games.tsx:46-54 | the game becomes current. A new game is appended to the stored list. An existing one changes neither list |
| GamesProvider.StartGameCurrentAgrees | frontend/src/providers/games.tsx:46-54 | after `startGame` the stored and in-memory current game are the same |
| GamesProvider.StartGamePreservesAgreement | frontend/src/providers/games.tsx:46-54 | `startGame` keeps memory and storage in agreement; a new game is appended to both lists |
| GamesProvider.FinishGame | frontend/src/providers/games.tsx:56-58 | only the in-memory current game is cleared |
| GamesProvider.FinishGameDiverges | frontend/src/providers/games.tsx:56-58 | after `finishGame` storage still holds the old current game, so the two levels disagree |
| GamesProvider.FindSession | frontend/src/providers/games.tsx:68 | `find` returns the first session of the game, or nothing when the game has none |
| GamesProvider.LoadGame | frontend/src/providers/games.tsx:67-74 | nothing changes without a session for the game. Otherwise the first session with that id becomes current in memory and is written as the stored current session, and the list is kept |
| GamesProvider.LoadGameCurrentAgrees | frontend/src/providers/games.tsx:67-74 | after loading, storage reads back as current the same first matching session that memory holds |
| GamesProvider.LoadGameIdempotent | frontend/src/providers/games.tsx:67-74 | loading the same game twice is the same as loading it once |
| GamesProvider.LoadGamePreservesAgreement | frontend/src/providers/games.tsx:67-74 | `loadGame` keeps memory and storage in agreement |
| GamesProvider.DeleteGame | frontend/src/providers/games.tsx:76-79 | the in-memory list becomes the filtered stored list; the in-memory current game is untouched |
| GamesProvider.DeleteGameListsAgree | frontend/src/providers/games.tsx:76-79 | after `deleteGame` the stored list and the in-memory list are the same |
| GamesProvider.DeleteCurrentDiverges | frontend/src/providers/games.tsx:76-79 | deleting the current game removes it from storage, but memory still holds it as current |
| GamesProvider.Perform | frontend/src/providers/games.tsx:46-79 | the pages' effects reach the provider in order; a list of effects that neither starts nor deletes a session leaves the provider as it was |
| GamesProvider.PerformKeepsAgreement | frontend/src/providers/games.tsx:46-54 | effects that only start or resume sessions keep memory and storage in agreement |
| Socket.On | frontend/src/utils/socket.ts:49-51 | the listener is appended after the listeners already there for that name; other names are untouched |
| Socket.LastIndex | frontend/src/utils/socket.ts:54-56 | finds the position of the most recently added copy of a listener, or reports that there is none |
| Socket.RemoveLast | frontend/src/utils/socket.ts:54-56 | removes exactly the most recently added copy of the listener when present, keeping the others in order, and nothing otherwise |
| Socket.RemoveLastKeepsEarlierCopy | frontend/src/utils/socket.ts:54-56 | with a listener registered before and after another, `off` drops the later copy |
| Socket.Off | frontend/src/utils/socket.ts:54-56 | the event's listeners lose their last copy of the listener, and the event stays registered exactly while listeners remain. Removing an unregistered listener changes nothing. Other names are untouched |
| Socket.OnThenOffRestores | frontend/src/utils/socket.ts:49-56 | `off` right after `on` with the same listener restores the table |
| Socket.DecodeFrame | frontend/src/utils/socket.ts:85-89 | a frame is an event exactly when its envelope parses, is not null, and its content (`{}` when falsy) parses. The event's name is the envelope's type and its data is the parsed content. An unparsable frame is malformed |
| Socket.Fire | frontend/src/utils/socket.ts:89 | every listener is called in registration order with the argument; only "error" with no listener throws |
| Socket.Receive | frontend/src/utils/socket.ts:85-94 | a well-formed frame fires its type. A malformed one, or an "error" frame nobody hears, goes to the "error" listeners and escapes when there are none |
| Socket.Opened | frontend/src/utils/socket.ts:64-66 | opening calls every "connect" listener with no argument |
| Socket.OpenedCallsNewListenerLast | frontend/src/utils/socket.ts:64-66 | a newly added "connect" listener is called last when the transport opens, and not when it closes |
| Socket.Closed | frontend/src/utils/socket.ts:69-71 | closing calls every "disconnect" listener with no argument |
| Socket.TransportError | frontend/src/utils/socket.ts:74-76 | a transport error calls no listener |
| Socket.EncodeFrame | frontend/src/utils/socket.ts:78-82 | the frame `emit` sends is JSON for an object whose type and id are the arguments and whose content is the payload's own JSON text |
| Socket.EmitThenReceive | frontend/src/utils/socket.ts:78-89 | a frame that `emit` builds decodes to the same event name and payload |
| Socket.EmptyContentIsMalformed | frontend/src/utils/socket.ts:88 | an envelope with a missing or falsy content field fails to decode |
| Socket.MalformedFiresNoTypeEvent | frontend/src/utils/socket.ts:85-94 | a frame that fails to decode never reaches a listener of any other event |
| PlayerScores.Compare | frontend/src/components/PlayerScores.tsx:18-26 | the comparator is zero for equal scores, positive when the first scores lower, and within -1..1 |
| PlayerScores.CompareAntisymmetric | frontend/src/components/PlayerScores.tsx:18-26 | swapping the arguments negates the comparator |
| PlayerScores.Insert | frontend/src/components/PlayerScores.tsx:18-26 | insertion adds exactly the one row |
| PlayerScores.InsertDescending | frontend/src/components/PlayerScores.tsx:18-26 | inserting into a list sorted by descending score keeps it sorted |
| PlayerScores.Sorted | frontend/src/components/PlayerScores.tsx:17-27 | the sort is a permutation of the rows, ordered by descending score |
| PlayerScores.SortedStable | frontend/src/components/PlayerScores.tsx:17-27 | rows with equal scores keep their arrival order, as a stable `Array.prototype.sort` does |
| PlayerScores.InsertStable | frontend/src/components/PlayerScores.tsx:17-27 | insertion keeps the relative order of rows with any one score |
| PlayerScores.WithScoreConcat | frontend/src/components/PlayerScores.tsx:17-27 | selecting the rows of one score distributes over concatenation |
| PlayerScores.SortedIdempotent | frontend/src/components/PlayerScores.tsx:17-27 | sorting an already sorted list returns it unchanged |
| PlayerScores.RowsArePermutation | frontend/src/components/PlayerScores.tsx:17-27 | every row occurs as often in the sorted list as in the input |
| PlayerScores.TiesKeepArrivalOrder | frontend/src/components/PlayerScores.tsx:17-27 | an illustration of SortedStable: scores 5, 9, 9 are shown as 9, 9, 5 with the tied players in arrival order |
| PlayerScores.Rows | frontend/src/components/PlayerScores.tsx:35-46 | one list item per row, ranked 1..n, scores non-increasing. Item i shows the name and score of the i-th row of the stable sort, and is highlighted exactly when that row's session is the viewer's |
| PlayerScores.RowsShowEachPlayerOnce | frontend/src/components/PlayerScores.tsx:35-46 | every input row is shown, with its own name, score and highlight, exactly as many times as it occurs |
| HomePage.Initial | frontend/src/pages/Home.tsx:10-13 | empty name, no error, not loading, no snackbar |
| HomePage.EditName | frontend/src/pages/Home.tsx:66-74 | the name is stored, and the error "Name cannot be empty" is shown exactly when it is empty |
| HomePage.Start | frontend/src/pages/Home.tsx:18-30 | ignored while loading. An empty name sets the error. Otherwise the error clears, the pressed button loads, and one start request goes out |
| HomePage.StartSettled | frontend/src/pages/Home.tsx:31-40 | loading ends. Success starts a new session and goes to the play page. Failure shows "Failed to start game." |
| HomePage.DismissStartError | frontend/src/pages/Home.tsx:103 | closing the snackbar clears its message and nothing else |
| HomePage.DoubleClickStartsOnce | frontend/src/pages/Home.tsx:23 | a second click while the first request is pending sends nothing |
| JoinPage.Initial | frontend/src/pages/JoinGame.tsx:11-16 | empty fields, no field errors, not loading |
| JoinPage.FieldError | frontend/src/pages/JoinGame.tsx:98-101 | a field has an error exactly when it is empty, and the error is that field's message |
| JoinPage.EditGameId | frontend/src/pages/JoinGame.tsx:94-102 | the game ID is stored; "Game ID cannot be empty" shows exactly when it is empty; nothing else changes |
| JoinPage.EditName | frontend/src/pages/JoinGame.tsx:114-122 | the name is stored; "Player Name cannot be empty" shows exactly when it is empty; nothing else changes |
| JoinPage.DeepLink | frontend/src/pages/JoinGame.tsx:23-35 | a non-empty `gameId` query fills the field and resumes a held session for it; otherwise nothing happens |
| JoinPage.Resume | frontend/src/pages/JoinGame.tsx:51-55 | resuming registers only the held session, always as an existing one, deletes nothing, and ends by going to the play page |
| JoinPage.ResumeMakesCurrent | frontend/src/pages/JoinGame.tsx:29-31 | resuming makes the held session current in memory, leaves both session lists as they were, and keeps memory and storage in agreement |
| JoinPage.Submit | frontend/src/pages/JoinGame.tsx:37-59 | an empty field gets its error and loading ends. A held session is resumed with loading left on. Otherwise one join request goes out |
| JoinPage.JoinSettled | frontend/src/pages/JoinGame.tsx:59-68 | loading ends. Success starts a new session and goes to the play page. Failure shows the message, clears the query string and stays |
| JoinPage.JoinRegistersSession | frontend/src/pages/JoinGame.tsx:59-61 | a successful join makes the session current and appends it to the stored list, keeping memory and storage in agreement |
| JoinPage.FilledFormKeepsErrors | frontend/src/pages/JoinGame.tsx:42-47 | submitting a filled form does not touch the field errors |
| GamePage.Initial | frontend/src/pages/Game.tsx:20-34 | the page starts with no game, no socket, not loading, score and index 0, and empty lists |
| GamePage.SwapGame | frontend/src/pages/Game.tsx:111-151 | a socket is opened exactly for a multiplayer game, and the previous game's socket is closed exactly when that game was multiplayer |
| GamePage.CurrentGameChanged | frontend/src/pages/Game.tsx:154-174 | no current game goes home. A new current game is captured and fetched once. The same game does nothing |
| GamePage.CaptureFetchesOnce | frontend/src/pages/Game.tsx:154-174 | seeing the same current game again after capturing it sends no second fetch |
| GamePage.FailedLoadForgetsGame | frontend/src/pages/Game.tsx:64-69 | after a failed fetch the page shows the error and the provider's `deleteGame` removes the game and the current session from storage, while memory still names it as current |
| GamePage.GameLoaded | frontend/src/pages/Game.tsx:44-70 | a finished game is kept and goes to the finish page. An unfinished one copies owner, score, index and questions and waits when not started. A loaded game closes the previous multiplayer game's socket and opens one exactly when it is multiplayer, and leaves the players, scores, error, countdown and captured session alone. A failure shows the error and deletes the stored session |
| GamePage.Answer | frontend/src/pages/Game.tsx:72-79 | posts the answer for the question on screen; an index past the questions does nothing |
| GamePage.AnswerSettled | frontend/src/pages/Game.tsx:80-102 | a correct answer takes the server's score. The verdict is announced. The last question goes to the finish page, any other advances to the server's next index. A failure changes nothing |
| GamePage.Verdict | frontend/src/pages/Game.tsx:81-92 | the wrong-answer text exactly for a wrong answer; for a right one, the first-to-answer text exactly when nobody answered before, and the not-first text otherwise |
| GamePage.WrongAnswerKeepsScore | frontend/src/pages/Game.tsx:81-92 | a wrong answer keeps the score and announces "You got the question wrong" |
| GamePage.Names | frontend/src/pages/Game.tsx:130 | the player list is the rows' names, in order |
| GamePage.OnSocketEvent | frontend/src/pages/Game.tsx:116-145 | each listener's change: connect notifies, countdown stores `Number(secondsLeft)`, start stops waiting, allPlayers replaces names, scoreUpdate replaces scores, playerJoined appends a 0-score row and notifies |
| GamePage.JoinPreservesEarlier | frontend/src/pages/Game.tsx:135-145 | a join notice adds one player and one score row after the existing ones |
| GamePage.EmitStartGame | frontend/src/pages/Game.tsx:105-109 | with a game and a socket, the page sends one "startGame" frame for that game with `{}`; otherwise nothing |
| GamePage.Unmount | frontend/src/pages/Game.tsx:147-149 | leaving the page closes the socket exactly when the game is multiplayer |
| GamePage.Listeners | frontend/src/pages/Game.tsx:116-145 | the page registers exactly one listener on each of its six events: connect, countdown, start, all players, score update, player joined |
| GamePage.UnheardEvents | frontend/src/pages/Game.tsx:116-145 | nothing listens for "gameFinished", "disconnect" or "error" |
| GamePage.MalformedFrameEscapes | frontend/src/pages/Game.tsx:116-145 | a malformed frame calls no page listener and its exception escapes, because there is no "error" listener |
| GamePage.Render | frontend/src/pages/Game.tsx:177-228 | loading wins over the error, the error over the waiting room, and the waiting room over the questions with the current index and score |
| FinishPage.Initial | frontend/src/pages/GameFinished.tsx:13-18 | the page starts loading, with no game, no details and no error |
| FinishPage.CurrentGameChanged | frontend/src/pages/GameFinished.tsx:35-53 | no current game goes home. A new current game is captured and ended once. The same game does nothing |
| FinishPage.EndCalledOncePerSession | frontend/src/pages/GameFinished.tsx:35-53 | the end request goes out at most once per captured session |
| FinishPage.EndSettled | frontend/src/pages/GameFinished.tsx:20-33 | loading ends; success stores the details and failure stores the message |
| FinishPage.Render | frontend/src/pages/GameFinished.tsx:55-90 | loading, then the not-found message on error, then the result, which shows the final score exactly when details arrived |
| FinishPage.SettledPageIsNotLoading | frontend/src/pages/GameFinished.tsx:32 | once the end request settles the page never shows "Loading..." |
| SessionStoreOps.CreateSession | backend/models/SessionStore.go:14-23 | adds one session with score 0 and question 0 under the fresh ID, records it as owner, returns the ID, and keeps the other sessions |
| SessionStoreOps.CreateAddsOne | backend/models/SessionStore.go:14-23 | creating a session under a fresh ID grows the store by one |
| SessionStoreOps.GetSession | backend/models/SessionStore.go:25-31 | found exactly when the ID is stored, and then it is that session |
| SessionStoreOps.DeleteSession | backend/models/SessionStore.go:33-38 | the session is gone and every other session and the owner are kept |
| SessionStoreOps.DeleteAbsentIsNoOp | backend/models/SessionStore.go:33-38 | deleting an unknown ID changes nothing |
| SessionStoreOps.CreateThenDeleteRestores | backend/models/SessionStore.go:14-38 | creating and then deleting a fresh session restores the sessions |
| GameServerModel.CheckAnswer | backend/models/GameServer.go:50-60 | "question not found" exactly when no question has the ID; otherwise whether the answer is the correct index of the first such question |
| GameServerModel.CheckAnswerUsesFirst | backend/models/GameServer.go:50-60 | the first question with the ID decides the answer |
| GameServerModel.SubmitAnswer | backend/models/GameServer.go:29-48 | an unknown session or question changes nothing. Otherwise only that session's score changes, by 10 for a correct answer. The index is not advanced |
| GameServerModel.SubmitAnswerOutrunsQuestions | backend/models/GameServer.go:29-48 | answering correctly through this path scores without advancing, so the same question can be scored again |
| AnswerController.AnswerHandler | backend/controllers/answer.go:23-55 | an unknown game is a 404 with an empty error object, and an unknown session or question a 404 with a message. Otherwise the session advances, gains 10 points when correct, finishes at the last question, and the reply echoes it. Nothing else changes |
| AnswerController.Advance | backend/controllers/answer.go:40-49 | a recorded answer moves the session to the next question, adds 10 points exactly when correct, and finishes it once the index reaches the question count |
| AnswerController.NewSessionBounded | backend/models/SessionStore.go:14-23 | a new session satisfies the score bound (a multiple of 10, at most 10 per answered question) |
| AnswerController.AnswerKeepsScoresBounded | backend/controllers/answer.go:23-55 | answering keeps every score a multiple of 10 and at most 10 per answered question |
| AnswerController.WrongAnswerAdvancesOnly | backend/controllers/answer.go:23-55 | a wrong answer moves to the next question and keeps the score |
| GameController.NewGameServer | backend/controllers/gameserver.go:15-31 | the new game is registered under its ID, unfinished and ownerless; a single-player game counts as started. Other games are kept |
| GameController.GetGameServer | backend/controllers/gameserver.go:33-39 | found exactly when registered; otherwise "game server not found" |
| GameController.CreatedGameIsFound | backend/controllers/gameserver.go:15-39 | a game just created is found under its ID |
| GameController.MarkFinished | backend/controllers/gameserver.go:45-53 | marks a registered game finished, or reports it missing; other games are kept |
| GameController.GetGameHandler | backend/controllers/gameserver.go:55-89 | 404 for an unknown game or session. Otherwise the body reports ownership, progress, score and state, with the answers removed from the questions |
| GameController.JoinGameHandler | backend/controllers/gameserver.go:91-126 | 404 for an unknown game. 400 for a single-player or finished game. Otherwise a session is added, the room is told, and the IDs are returned |
| GameController.JoinKeepsOwner | backend/controllers/gameserver.go:91-126 | joining never changes who owns the game |
| GameController.JoinAddsOneSession | backend/controllers/gameserver.go:91-126 | a successful join with a fresh ID adds exactly one session |
| GameController.GameWebSocketHandler | backend/controllers/gameserver.go:128-152 | an unknown game or failed upgrade registers nothing. Otherwise the client joins the room and gets the player list then the scores, and no one else gets anything |
| GameController.QuestionCount | backend/controllers/gameserver.go:167-172 | zero requested questions means 10; any other count is used as is |
| GameController.StartGameHandler | backend/controllers/gameserver.go:155-187 | a load error is a 500 carrying it. Otherwise a new game holds the loaded questions and one session, owned by the creator, started exactly when single-player |
| GameController.CreatorIsOwner | backend/controllers/gameserver.go:155-187 | the creator sees the new game as owner with score 0 at question 0; no other session is the owner |
| GameController.StartKeepsScoresBounded | backend/controllers/gameserver.go:155-187 | creating a game keeps every score within the bound |
| GameController.JoinKeepsScoresBounded | backend/controllers/gameserver.go:91-126 | joining keeps every score within the bound |
| GameController.EndDetails | backend/controllers/gameserver.go:190-210 | the final score is the session's. A players list is present exactly for multiplayer games. Its i-th row is the row of the i-th session the map iteration visits, so each session appears exactly once |
| GameController.EndDetailsIndependentOfOrder | backend/controllers/gameserver.go:192-197 | whatever order the session map is iterated in, the end details list the same rows, each as often |
| GameController.EndGameHandler | backend/controllers/gameserver.go:212-253 | 404 for an unknown game or session. Otherwise the game is finished once every session is. The room gets the final table then, or a score update before. The reply is the end details |
| GameController.EndFinishesIffAllFinished | backend/controllers/gameserver.go:235-252 | after an end request the game is finished exactly when it already was or every session has finished, and the reply says so |
| GameController.EndKeepsSessions | backend/controllers/gameserver.go:212-253 | ending never changes any session |
| QuestionController.Strip | backend/controllers/question.go:45-47 | the copy keeps ID, text and options, and drops the correct index |
| QuestionController.ShuffleQuestions | backend/controllers/question.go:39-53 | the result is a permutation of the stripped copies, so no correct answer is served |
| QuestionController.ShuffleKeepsIds | backend/controllers/question.go:39-53 | the shuffled questions have the same IDs, counted with multiplicity |
| QuestionController.GetQuestionsHandler | backend/controllers/question.go:14-23 | a load error is a 500. Fewer than ten questions panic on the slice. Otherwise ten stripped questions drawn from the file are served, and their ids are a sub-multiset of the loaded ids |
| Hub.Members | backend/models/Hub.go:72-82 | an unknown room has no members |
| Hub.MembersAreOpen | backend/models/Hub.go:72-82 | in a sound hub every client a room lists belongs to that room and has an open channel |
| Hub.Register | backend/models/Hub.go:85-97 | the client joins its room, created on demand; other rooms and inboxes are kept |
| Hub.Remove | backend/models/Hub.go:100-109 | in a known room the client leaves and its channel is closed, crashing if it was closed already. An unknown room changes nothing |
| Hub.RegisterThenRemove | backend/models/Hub.go:85-109 | registering and then removing a new client leaves the room's members as before |
| Hub.Send | backend/models/Hub.go:163-187 | a send appends the message to the inbox of exactly the addressed clients and changes nothing else |
| Hub.Deliver | backend/models/Hub.go:144-150 | one non-blocking send round: the room only loses members, exactly the members it loses are closed, the hub crashes exactly when a member's channel was already closed, and one send is logged |
| Hub.DeliverTo | backend/models/Hub.go:163-187 | a member whose send succeeds gets the message and stays in the room. A refused member is evicted and gets nothing, and a non-member gets nothing |
| Hub.DeliverOtherRooms | backend/models/Hub.go:163-187 | a delivery leaves every other room as it was |
| Hub.DeliverKeepsSound | backend/models/Hub.go:163-187 | when every member sits in its own room with an open channel, a delivery keeps that so and does not crash the hub |
| Hub.CountdownMessage | backend/models/Hub.go:111-115 | a countdown message carries the seconds as decimal text |
| Hub.HandleMessage | backend/models/Hub.go:133-189 | "startGame" marks the game started after the countdown, crashing for an unknown game. "message" goes to the room, "notification" to the recipient's room, and other kinds are ignored |
| Hub.Tick | backend/models/Hub.go:142-156 | ticks 0..10 carry a seconds-left countdown and every later tick carries the start message |
| Hub.Ticks | backend/models/Hub.go:143-157 | the countdown loop logs exactly one send round per tick |
| Hub.TicksMembership | backend/models/Hub.go:143-151 | a client is still a member after the countdown exactly when every one of its sends was accepted |
| Hub.TicksInbox | backend/models/Hub.go:143-151 | each member receives the ticks up to its first refused send; non-members receive nothing |
| Hub.ReceivedExtend | backend/models/Hub.go:143-158 | one more tick adds that tick to what a client receives exactly when all its sends so far were accepted |
| Hub.NextTickInbox | backend/models/Hub.go:143-158 | delivering the next tick after a run of ticks extends each member's inbox by that tick when it is still a member |
| Hub.StartRunInbox | backend/models/Hub.go:138-160 | a member gets the eleven countdown ticks and the start message, up to its first refused send. The start message is missing when the game is unknown. Others get nothing |
| Hub.AllAcceptedReceivesScript | backend/models/Hub.go:138-160 | when no send is refused, a member receives every tick in order |
| Hub.ScriptCountsDown | backend/models/Hub.go:142-156 | ticks 0..10 count down from 10 to 0, and tick 11 is the start message |
| Hub.HandleMessageKeepsSound | backend/models/Hub.go:133-189 | handling a message keeps every member in its own room with an open channel |
| Hub.TicksKeepSound | backend/models/Hub.go:143-151 | the countdown keeps every member in its own room with an open channel and never crashes the hub |
| HubNotify.Post | backend/controllers/hub.go:42-44 | every member of the room receives the message, others nothing; membership is kept |
| HubNotify.SendTo | backend/controllers/hub.go:50 | only the one client receives the message |
| HubNotify.PlayerRows | backend/controllers/hub.go:24-34 | one row per session in the iteration order, carrying its name, ID and decimal score |
| HubNotify.RowsIndependentOfOrder | backend/controllers/hub.go:24-34 | any two iteration orders give the same rows up to order |
| HubNotify.SameAsMapped | backend/controllers/hub.go:24-34 | the rows are the row of each key in the order's sequence |
| HubNotify.RowScoreReadsBack | backend/controllers/hub.go:28 | a row's score text reads back, with `Number()`, as the session's score |
| HubNotify.PlayerJoinedNotification | backend/controllers/hub.go:11-21 | every member of the game's room receives a "playerJoined" notice with the name and session ID |
| HubNotify.SendGameFinishedMessage | backend/controllers/hub.go:37-45 | every member of the room receives "gameFinished" with the score table |
| HubNotify.SendExistingPlayersMessage | backend/controllers/hub.go:48-51 | only the new client receives "allPlayers" with the score table |
| HubNotify.SendScoreUpdateMessage | backend/controllers/hub.go:54-57 | only the new client receives "scoreUpdate" with the score table |
| HubNotify.SendScoreUpdateMessageToAllClients | backend/controllers/hub.go:60-68 | every member of the room receives "scoreUpdate" with the score table |
| HubNotify.NewClientContentsAgree | backend/controllers/gameserver.go:150-151 | a new client receives "allPlayers" and then "scoreUpdate", and the two carry the same rows |
| HubNotify.FinishedAndUpdateAgree | backend/controllers/hub.go:37-68 | the final table and a score update sent from the same game state carry the same rows |
| Protocol.HubFrameDecodes | backend/models/Hub.go:25-31 | a frame the hub marshals from its message struct reaches the client as an event of the message's type carrying the parsed content; content that does not parse makes it malformed |
| Protocol.KindsAreEventNames | frontend/src/utils/socket.ts:3-12 | every message kind the backend sends is one of the client's event names |
| Protocol.CountdownReachesPage | backend/models/Hub.go:111-115 | the page shows 10 - k seconds on receiving the k-th countdown tick |

## Left out

- HTTP binding, routing, CORS and the WebSocket upgrade. Request bodies arrive already parsed. The 400 "Invalid request body" answers for JSON that does not bind are not modelled.
- Concurrency. Every handler runs alone. The one-second ticker is modelled as a sequence of ticks. The goroutines that read and write each client's socket (`Client.go`, not part of this model) are replaced by per-client inboxes.
- The mutex in `GameServer.SubmitAnswer` is locked again by `CheckAnswer`, which deadlocks in Go. Only the sequential meaning of the two is modelled.
- `GameServer.StartGame` is not part of this model. The controllers create games through `NewGameServer` and `CreateSession`.
- `LoadQuestions` reads a file. Its result (questions or an error) is a parameter. `StartGameHandler` passes it a count that its declaration does not take, so the loader is a function of the count.
- `RemoveAnswers` and the random game and session IDs are parameters. So is `getLocalStorageGameById`, the lookup behind the Join page.
- Timestamps (`Started`, `Finished`) are booleans. Only whether they are zero is ever read.
- Scores are unbounded integers. Go's `int` width and overflow are not modelled.
- The backend sends scores as decimal strings, while the client's `ScoreUpdate.score` is a number. The table compares them as numbers, as for scores that arrived through a "playerJoined" notice. String comparison of scores that arrived as text is not modelled. `HubNotify.RowScoreReadsBack` says what converting that text gives.
- `SessionStore.CreateSession` never sets the session's `ID` field, so every score row carries an empty session ID. The model keeps this, so no row in the client's table matches the viewer's session.
- `GameFinished.tsx` has no socket code. The finished page does not listen for "gameFinished".
- `GET /questions` is not registered among the routes, but its handler is modelled.
- `!==` between two session objects compares references in JavaScript. The model compares values.
- `Array.prototype.sort` sorts the score array in place. The model returns the sorted copy, and the stability the standard requires is proved.
- The snackbar texts begin with emoji. They are written as Unicode code points, and the source's mis-encoded bytes are not copied.
- `Number()` is modelled for optionally signed decimal digits only. Other text is NaN. `Number("")` is 0, as in JavaScript.
- LocalStorage.GetGames: JSON that parses but is not a list of sessions reads as the empty list. The source returns such a value unchanged.
- LocalStorage.GetCurrent: JSON that parses but is not a session reads as no current game. The source returns such a value unchanged.
- Socket.Fire: a listener that throws is not modelled. Listeners are names, and their effects belong to the page.
- HubNotify.Post: the blocking sends of the notification helpers would panic on a closed channel. `Hub.Sound` rules that out for members, and the helpers do not model it.
