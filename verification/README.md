# Console session model

A Dafny model of the session logic of Cutter's console widget
(`src/widgets/ConsoleWidget.cpp`): the bounded command history with its
Up/Down navigation cursor, the completion controller, and the single-flight
command scheduler that echoes a command, runs it on the engine and, when the
engine finishes, shows the result, records the command and asks dependent
views to refresh if the current address moved.

The session is an immutable `Console.Session` record and every user action
is a pure function from session to session. The engine is not modelled: its
current address, its completion query and its address formatter are fields
of an `Engine` value handed to every event.

Modules:

- `Optional` (`optional.dfy`): the `Option` type.
- `History` (`history.dfy`): `historyAdd`, `invalidateHistoryPosition`,
  `historyPrev`, `historyNext`, with capacity `MaxEntries = 100` and the
  "not navigating" cursor `-1`.
- `Completion` (`completion.dfy`): `lastIndexOf(' ')`, the prefix rewrite of
  candidates, `updateCompletion`, `triggerCompletion`, `disableCompletion`.
- `Console` (`console.dfy`): the session record, `executeCommand`, the Return
  key, the completion handler of a command as an ordered list of effects,
  `clear`, and an event step function with the session invariant it keeps.

Behaviour of the code kept in the model:

- The engine is asked for completions of the whole input line, and only the
  space character `' '` marks where the kept prefix ends
  (ConsoleWidget.cpp:364-366).
- Up on an empty history changes nothing (ConsoleWidget.cpp:328).
- The Return handler empties the command line after calling
  `executeCommand`, whether or not that call accepted the command
  (ConsoleWidget.cpp:278-279).

## Model

| member | source | states |
|---|---|---|
| History.Empty | src/widgets/ConsoleWidget.cpp:46-47 | the console starts with no history, not navigating, within the invariant |
| History.Add | src/widgets/ConsoleWidget.cpp:394-403 | the new command is at index 0, every old entry moves one place back, the oldest is dropped exactly when the size would exceed 100, the size never exceeds 100, the cursor is reset to -1 |
| History.Invalidate | src/widgets/ConsoleWidget.cpp:404-407 | the cursor becomes -1 and the list is untouched |
| History.Prev | src/widgets/ConsoleWidget.cpp:326-335 | on an empty history nothing changes; otherwise the cursor ends inside the list and the input shows that entry; from -1 it shows the newest; it steps one older; at (or past) the oldest it stays on the oldest |
| History.Next | src/widgets/ConsoleWidget.cpp:307-324 | no change on an empty history or at -1; otherwise the cursor is pulled back into the list and then moved one newer, the input shows that entry or is emptied when the cursor reaches -1; no index leaves the list |
| History.PrevThenNext | src/widgets/ConsoleWidget.cpp:307-335 | from any entry but the oldest, Up then Down returns to the same cursor and shows the same text |
| History.NextThenPrev | src/widgets/ConsoleWidget.cpp:307-335 | from any entry, Down then Up returns to the same cursor and text; from the newest, Down passes through -1 |
| History.PrevWalksOlder | src/widgets/ConsoleWidget.cpp:326-335 | n presses of Up from -1 visit entries 0, 1, ... in order and then stay on the oldest |
| History.AddAllKeepsNewest | src/widgets/ConsoleWidget.cpp:394-403 | after any sequence of additions the list is exactly the newest 100 commands ever added, most recent first (so after 101 additions the first one is gone) |
| Completion.Initial | src/widgets/ConsoleWidget.cpp:91-100 | completion starts switched off with nothing offered, as the first refresh of an inactive completer leaves it |
| Completion.LastIndexOf | src/widgets/ConsoleWidget.cpp:366 | the result is -1 or the position of the character, and the character occurs nowhere after it |
| Completion.Consumed | src/widgets/ConsoleWidget.cpp:366-368 | the kept prefix is empty or ends at a space, the rest of the line holds no space, and it is empty exactly when the line has no space |
| Completion.ConsumedIsUnique | src/widgets/ConsoleWidget.cpp:366-368 | any prefix that is empty or ends at a space and leaves no space behind is the one the console keeps |
| Completion.Rewrite | src/widgets/ConsoleWidget.cpp:363-373 | same length and order as the engine's list, each entry is the kept prefix followed by the candidate, and without a space the candidates pass through unchanged |
| Completion.Update | src/widgets/ConsoleWidget.cpp:357-374 | inactive: the list is emptied; active: the engine is asked about the whole line and its answers are published with the prefix; activity is unchanged |
| Completion.Trigger | src/widgets/ConsoleWidget.cpp:337-345 | already active: no change; otherwise active with freshly rewritten candidates |
| Completion.Disable | src/widgets/ConsoleWidget.cpp:347-355 | already inactive: no change; otherwise inactive with an empty list |
| Completion.TogglesIdempotent | src/widgets/ConsoleWidget.cpp:337-355 | triggering twice equals triggering once, disabling twice equals disabling once |
| Console.Init | src/widgets/ConsoleWidget.cpp:42-100 | a fresh console has an empty history with the cursor at -1, both input lines empty, completion off with nothing offered, no command in flight with the line enabled, no output and no refresh, and satisfies the session invariant |
| Console.EchoLine | src/widgets/ConsoleWidget.cpp:216 | the echo is `[`, the address, `]> `, the command and a line break, each at its position |
| Console.ExecuteCommand | src/widgets/ConsoleWidget.cpp:209-221 | with a command in flight nothing changes; otherwise exactly one echo line is appended, the command and its issue address become the task in flight, the command line is disabled and nothing else changes |
| Console.ReturnPressed | src/widgets/ConsoleWidget.cpp:272-280 | an empty line is ignored; otherwise the line is submitted and emptied (one echo, the task in flight, the line disabled, nothing else changed), and while a command is in flight only the emptying happens |
| Console.FinishEffects | src/widgets/ConsoleWidget.cpp:223-233 | the handler's steps are: show the result, record the command, clear the task, enable the line, and a refresh only when the address changed |
| Console.Finish | src/widgets/ConsoleWidget.cpp:223-233 | the result is appended, the history is exactly what adding the command makes of it (command first, older entries shifted by one, the oldest dropped at 100) even for an empty result, the scheduler is idle with the line enabled, and one refresh is sent exactly when the address moved |
| Console.FinishOrder | src/widgets/ConsoleWidget.cpp:223-233 | the command is recorded only after the result is shown, the task is cleared only after that, and the refresh is the last step, taken when result, history entry and idle state are all visible |
| Console.HistoryPrev | src/widgets/ConsoleWidget.cpp:326-335 | the cursor moves one entry older, stopping at the oldest, and the command line shows the entry under it; nothing else in the session changes |
| Console.HistoryNext | src/widgets/ConsoleWidget.cpp:307-324 | when navigating, the cursor is pulled back into the list and moved one entry newer, and the command line shows the entry under it or is emptied at -1; nothing else in the session changes |
| Console.Edited | src/widgets/ConsoleWidget.cpp:99 | an edit of the command line sets the text; while completion is on the published list becomes the engine's answers for the new text, each behind the text up to its last space; while off it stays empty |
| Console.TriggerCompletion | src/widgets/ConsoleWidget.cpp:337-345 | completion is on afterwards; it was already on: no change; otherwise candidates for the current line are published |
| Console.DisableCompletion | src/widgets/ConsoleWidget.cpp:347-355 | completion is off afterwards with nothing offered, and nothing else changes |
| Console.Clear | src/widgets/ConsoleWidget.cpp:376-387 | completion off, both input lines empty, cursor -1; history list, output and any command in flight unchanged |
| Console.StepKeepsValid | src/widgets/ConsoleWidget.cpp:209-407 | every event keeps the invariant: history bounded by 100 with the cursor in range, nothing offered while completion is off, the line disabled exactly while a command is in flight |
| Console.RunKeepsValid | src/widgets/ConsoleWidget.cpp:209-407 | every sequence of events keeps the invariant, so the history never holds more than 100 commands |
| Console.ReturnWhileRunning | src/widgets/ConsoleWidget.cpp:209-213 | while a command is in flight Return produces no echo, no new task and no history change |

## Left out

- Output redirection (`redirectOutput`, ConsoleWidget.cpp:429-551), the queued-output drain (`processQueuedOutput`, :409-422) and the `readyRead` handlers: pipes, descriptor duplication, sockets and a reader thread, none of it session logic.
- Sending to the debuggee's stdin (`sendToStdin`, :239-251, and its Return handler, :282-290): a raw descriptor write; the model keeps only the stdin line's text, which `clear` empties.
- The destructor, constructor wiring, keyboard shortcuts, `eventFilter`, fonts, line wrap, settings, the context menu and `onIndexChange` (:42-187, :253-270, :297-305): widget plumbing. Two exceptions are modelled: the initial history state (:46-47, `History.Empty`, `Console.Init`) and the refresh of completion on every edit (:99, `Console.Edited`). Because `eventFilter` is left out, the model lets Up and Down happen while the completion popup is visible.
- Scrolling, focus changes and showing or hiding the completion popup: display only.
- The engine: `autocomplete` (with its prompt mode), `getOffset`, `RzAddressString`, `CommandTask` with its colour mode, and the task manager are parameters. `executeCommand` reads the current address twice (:216 and :219); the model reads it once: only the echo's display append runs in between, and it does not move the engine's address.
- The display: the console builds a `QTerminalDisplay` (:59), whose source is not part of this model. The display is abstracted as an append-only list of the texts passed to it at :217 (the echo) and :224 (the result). Its rendering, including ANSI decoding and any carriage-return handling, is not modelled.
- Console.Step: the command line is disabled while a command is in flight (:214), so no edit, history key, Tab or Return can reach it then. The model does not track that: it accepts these events in every state, a sound over-approximation. It proves that Return then submits nothing (`Console.ReturnWhileRunning`).
- Console.Step: only dispatches each event to its handler, mirroring the signal wiring (:99, :108-131) and the task's finished connection (:222-223); it carries no contract of its own, and what it keeps is stated by `Console.StepKeepsValid` and `Console.RunKeepsValid`.
- Other writers to the display are not modelled: `addOutput`/`addDebugOutput` called from elsewhere (:189-202), the "Sent input" line (:244) and redirected output lines (:419, :533). Nor is the "Clear Output" action (:76-81), which empties the display. The model's output list holds only what the scheduler appends.
- Console.Step: a task-finished event with no command in flight is ignored, since the engine only reports tasks it was given.
