# EcoFramework core, modelled in Dafny

EcoFramework is a base library for Bukkit/Spigot Minecraft server plugins.
This project models its core and proves properties about it:

- **Task pairs** (`async/AsyncFrame.java`). A parent half is ticked by the
  server scheduler. A child half runs once on its own thread. The two halves
  share a stop/persist handshake: flags `end`, `persist` and `childend`,
  plus the scheduler's cancellation.
  - `Handshake` states the handshake as a pure state machine over both
    halves, together with its trace lemmas.
  - `AsyncFrame.Frame` is the imperative object. Each of its methods is tied
    to one `Handshake` step through `View()`.
- **Queue-processing pairs** (`async/AsyncProcessFrame.java`,
  `async/MessageAsyncFrame.java`). These are the bounded FIFO drain of the
  parent, the child's poll loop, the routing of `receiveData`/`sendData`,
  and the defaults read from the configuration. `Batching` models the
  drain's `long` countdown, including wrap-around.
- **Payload version metadata** (`async/PayloadFrame.java`). This covers
  tokenising a version string and rendering it back, with a proved round
  trip. It relies on `JavaLong` (`Long.toString`/`Long.parseLong`) and on
  `Strings` (`String.split` with a one-character class, ASCII
  `toLowerCase`).
- **Utilities** (`Utl.java`). This covers colour-code and full-width-space
  replacement, joining arguments, and the message prefixes.
- **Commands** (`CommandFrame.java`). The command tree is a value. The
  model covers execute's delegation and sender gates, the range check, the
  permission list and tab completion.
- **Column types** (`db/CTYPE.java`). These are the SQL type names and the
  primary-key text for each backend.
- **Player data store** (`store/PlayerDataFileStoreListener.java`). A
  per-player "save in progress" table blocks logins. Login and quit
  handlers consult the database. `reloadNotify` changes the settings only
  when it succeeds.
- **Plugin base** (`PluginFrame.java`). This covers the mutually consistent
  dependency maps, the reload-notification list without duplicates,
  command dispatch by name, and handing the manager to every frame.

Java's `null` results and `NullPointerException`s are modelled as explicit
failure values: a `false` result, `NullLookup`, `NullDereference` or
`NullDbSetting`. Side effects that leave the model are recorded in one of
two ways: as values (`Outgoing`, `Delivery`, `Effect`) or as flags on the
objects (`launched`, `cancelled`, `finalized`). Host answers are passed in
as parameters: the configuration, the online players, the database's
replies, and the plugin the plugin manager finds.

## Model

| member | source | states |
|---|---|---|
| Handshake.RunAppend | src/main/java/jp/minecraftuser/ecoframework/async/AsyncFrame.java:44-140 | Running a concatenated trace of handshake steps equals running its parts one after the other. |
| Handshake.FlagsOnlyRise | src/main/java/jp/minecraftuser/ecoframework/async/AsyncFrame.java:12-17 | No sequence of stop/childStop/setPersist/tick/cancel steps ever resets `end`, `persist`, `childend` or a cancellation. |
| Handshake.PersistBlocksAutoStop | src/main/java/jp/minecraftuser/ecoframework/async/AsyncFrame.java:44-53 | Once `persist` is set while `end` is unset, `end` stays unset whatever steps follow. |
| Handshake.EndIffUnpersistedCompletion | src/main/java/jp/minecraftuser/ecoframework/async/AsyncFrame.java:44-53 | `end` becomes set exactly when a child completion happens while `persist` is still unset (both directions). |
| Handshake.CompletionThenTickCancels | src/main/java/jp/minecraftuser/ecoframework/async/AsyncFrame.java:103-112 | Without persist, a completed child makes the parent's next tick cancel both halves and set `childend`, whatever happens in between. |
| Handshake.ChildStopIdempotent | src/main/java/jp/minecraftuser/ecoframework/async/AsyncFrame.java:59-68 | Two consecutive `childStop()` calls have the same effect as one, at any point of any trace. |
| Handshake.ParentCancelCascades | src/main/java/jp/minecraftuser/ecoframework/async/AsyncFrame.java:129-140 | Whenever the parent becomes cancelled, the child has been asked to stop and is cancelled too. |
| AsyncFrame.Frame.Parent | src/main/java/jp/minecraftuser/ecoframework/async/AsyncFrame.java:24-32 | Builds exactly one fresh child that points back to the parent, launches it, and starts with every flag unset. |
| AsyncFrame.Frame.Child | src/main/java/jp/minecraftuser/ecoframework/async/AsyncFrame.java:34-38 | A child records its parent, has no child of its own, and starts with every flag unset. |
| AsyncFrame.Frame.Stop | src/main/java/jp/minecraftuser/ecoframework/async/AsyncFrame.java:44-53 | `end` is set when `persist` is unset and is otherwise left as it was. |
| AsyncFrame.Frame.ChildStop | src/main/java/jp/minecraftuser/ecoframework/async/AsyncFrame.java:59-68 | On a parent, the call forwards to the child and changes only the child's `childend`. On a child, it sets `childend`. Both are the ChildStop step of the pair. |
| AsyncFrame.Frame.SetPersist | src/main/java/jp/minecraftuser/ecoframework/async/AsyncFrame.java:75-83 | On a child, the call forwards to the parent. On a parent, it sets `persist`. Both are the SetPersist step of the pair. |
| AsyncFrame.Frame.Cancel | src/main/java/jp/minecraftuser/ecoframework/async/AsyncFrame.java:129-140 | A parent cancels itself, sets the child's `childend` and cancels the child. A child cancels only itself. |
| AsyncFrame.Frame.ParentTick | src/main/java/jp/minecraftuser/ecoframework/async/AsyncFrame.java:103-112 | After the parent's work, the pair is cancelled if and only if `end` is set. |
| AsyncFrame.Frame.ChildCompleted | src/main/java/jp/minecraftuser/ecoframework/async/AsyncFrame.java:115-120 | After the child's work, the parent's `stop()` is called once, changing only the parent's `end`. |
| Batching.Decrement | src/main/java/jp/minecraftuser/ecoframework/async/AsyncProcessFrame.java:83 | `cnt--` on a Java `long`: one less, except that the minimum wraps to the maximum. |
| Batching.DrainCap | src/main/java/jp/minecraftuser/ecoframework/async/AsyncProcessFrame.java:79-87 | The number of items one drain may take is at least one, whatever `count` is. |
| Batching.CounterStep | src/main/java/jp/minecraftuser/ecoframework/async/AsyncProcessFrame.java:79-87 | While the drain continues, the counter stays in the `long` range and each poll decrements it with wrap-around. |
| Batching.CounterExpiresAtCap | src/main/java/jp/minecraftuser/ecoframework/async/AsyncProcessFrame.java:84-86 | The `cnt <= 0` exit fires exactly after the cap-th poll and never earlier. |
| Batching.DrainCapOrdinary | src/main/java/jp/minecraftuser/ecoframework/async/AsyncProcessFrame.java:79-87 | Apart from `Long.MIN_VALUE`, the cap is `count` when positive and 1 otherwise. |
| AsyncProcessFrame.ConfigLong | src/main/java/jp/minecraftuser/ecoframework/async/AsyncProcessFrame.java:32-43 | A configured value is used, and the default is used when the key is absent. |
| AsyncProcessFrame.ProcessFrame.Parent | src/main/java/jp/minecraftuser/ecoframework/async/AsyncProcessFrame.java:25-44 | Builds a linked pair with empty queues. Both halves read `count` (default 50) and `sleep` (default 1) from the configuration. |
| AsyncProcessFrame.ProcessFrame.Child | src/main/java/jp/minecraftuser/ecoframework/async/AsyncProcessFrame.java:52-70 | The child half links to its parent and reads the same settings with the same defaults. |
| AsyncProcessFrame.ProcessFrame.ParentRun | src/main/java/jp/minecraftuser/ecoframework/async/AsyncProcessFrame.java:77-88 | Polls exactly min(queue length, cap) items from the front in FIFO order. The rest stay queued in order. |
| AsyncProcessFrame.ProcessFrame.Poll | src/main/java/jp/minecraftuser/ecoframework/async/AsyncProcessFrame.java:81 | On an empty queue nothing is returned and the queue stays empty. Otherwise the head is returned and removed, and the rest stay in order. |
| AsyncProcessFrame.ProcessFrame.Tick | src/main/java/jp/minecraftuser/ecoframework/async/AsyncFrame.java:103-112 | The parent's `run()`: one bounded drain followed by the tick step of the handshake. |
| AsyncProcessFrame.ProcessFrame.ChildRun | src/main/java/jp/minecraftuser/ecoframework/async/AsyncProcessFrame.java:95-118 | Sets persist first. Each pass takes at most one item, in queue order. The loop leaves normally only on `childend` seen at the top of a pass, and `finalizeProcess` runs once, only after that. A negative `sleep` aborts the loop at the end of its first pass: at most one item is taken and `finalizeProcess` does not run. |
| AsyncProcessFrame.ProcessFrame.ChildTask | src/main/java/jp/minecraftuser/ecoframework/async/AsyncFrame.java:115-120 | The child's whole `run()`. After a normal leave the parent's `stop()` runs, and because persist was set first it leaves the parent's `end` flag unchanged. After an aborted loop, or while the loop still runs, `stop()` has not run and only persist has changed on the parent. |
| AsyncProcessFrame.ProcessFrame.AddData | src/main/java/jp/minecraftuser/ecoframework/async/AsyncProcessFrame.java:126-128 | Appends to this half's own queue. |
| AsyncProcessFrame.ProcessFrame.ReceiveData | src/main/java/jp/minecraftuser/ecoframework/async/AsyncProcessFrame.java:134-136 | On a child, appends to the parent half's queue, and nothing else changes: only that queue is in the frame. The pair stays linked. On a parent, the null link makes the call fail. |
| AsyncProcessFrame.ProcessFrame.SendData | src/main/java/jp/minecraftuser/ecoframework/async/AsyncProcessFrame.java:142-144 | On a parent, appends to the child half's queue, and nothing else changes: only that queue is in the frame. The pair stays linked. On a child, the call fails. |
| MessageAsyncFrame.ReceiveMessage | src/main/java/jp/minecraftuser/ecoframework/async/MessageAsyncFrame.java:111-113 | On a child, `receiveMessage` appends the message to the parent half's queue and changes nothing else, and the pair stays linked. On a parent, the null link makes the call fail. |
| MessageAsyncFrame.SendMessage | src/main/java/jp/minecraftuser/ecoframework/async/MessageAsyncFrame.java:119-121 | On a parent, `sendMessage` appends the message to the child half's queue and changes nothing else, and the pair stays linked. On a child, the call fails. |
| MessageAsyncFrame.ChildRun | src/main/java/jp/minecraftuser/ecoframework/async/MessageAsyncFrame.java:73-95 | Sets persist and handles at most one message per pass in FIFO order. It leaves normally only on `childend`, aborts after the first pass when `sleep` is negative, and runs no finalize hook. |
| AsyncProcessFrame.AfterTicksDrops | src/main/java/jp/minecraftuser/ecoframework/async/AsyncProcessFrame.java:77-88 | After `t` ticks with no new input, exactly the first min(length, t × cap) items are gone. |
| AsyncProcessFrame.TicksEmptyQueue | src/main/java/jp/minecraftuser/ecoframework/async/AsyncProcessFrame.java:77-88 | A queue no longer than t × cap is empty after t ticks with no new input. |
| MessageAsyncFrame.NewMessageFrame | src/main/java/jp/minecraftuser/ecoframework/async/MessageAsyncFrame.java:26-45 | Builds a linked pair with empty queues. It reads "framework-message-sending-max" (default 50) and "framework-message-receive-interval" (default 1). |
| MessageAsyncFrame.Deliveries | src/main/java/jp/minecraftuser/ecoframework/async/MessageAsyncFrame.java:56-63 | Polled messages yield at most one delivery each, and only to online players. |
| MessageAsyncFrame.DeliveriesAppend | src/main/java/jp/minecraftuser/ecoframework/async/MessageAsyncFrame.java:55-65 | Deliveries of a concatenated batch are the deliveries of its parts, in order. |
| MessageAsyncFrame.DeliveredIffOnline | src/main/java/jp/minecraftuser/ecoframework/async/MessageAsyncFrame.java:56-63 | A message is delivered if and only if it was polled and its addressee is online. |
| MessageAsyncFrame.ParentRun | src/main/java/jp/minecraftuser/ecoframework/async/MessageAsyncFrame.java:52-66 | Takes exactly min(length, cap) messages from the front and delivers those whose addressee is online. A dropped message still counts toward the cap. |
| JavaLong.ParseLong | src/main/java/jp/minecraftuser/ecoframework/async/PayloadFrame.java:32 | A successful parse needs a non-empty text, and a negative result needs a leading '-'. |
| JavaLong.NatToStringDigits | src/main/java/jp/minecraftuser/ecoframework/async/PayloadFrame.java:88-96 | The printed number is a non-empty string of digits whose decimal value is the number. |
| JavaLong.ParseLongToString | src/main/java/jp/minecraftuser/ecoframework/async/PayloadFrame.java:32 | Parsing a printed non-negative `long` gives it back. |
| Strings.Lower | src/main/java/jp/minecraftuser/ecoframework/async/PayloadFrame.java:28 | Lower-casing keeps the length and maps each character on its own. |
| Strings.SplitNoSeparator | src/main/java/jp/minecraftuser/ecoframework/async/PayloadFrame.java:25 | Text without a separator splits into itself alone. |
| Strings.SplitAtSeparator | src/main/java/jp/minecraftuser/ecoframework/async/PayloadFrame.java:25 | Splitting at a separator gives the part before it, followed by the split of the rest. |
| Strings.SplitPiecesClean | src/main/java/jp/minecraftuser/ecoframework/async/PayloadFrame.java:25 | No piece of a split contains a separator. |
| Strings.JavaSplitPiecesClean | src/main/java/jp/minecraftuser/ecoframework/async/PayloadFrame.java:25 | No token of `split("[. -]")` contains '.', ' ' or '-'. |
| PayloadFrame.NewPayload | src/main/java/jp/minecraftuser/ecoframework/async/PayloadFrame.java:23-45 | The token loop leaves exactly the fields that `ParseVersion` describes. |
| PayloadFrame.GetVersion | src/main/java/jp/minecraftuser/ecoframework/async/PayloadFrame.java:86-103 | The builder emits major, ".minor" and ".revision" only for fields other than -1, then "-SNAPSHOT" when the flag is set. |
| PayloadFrame.UnusableTokenIsIgnored | src/main/java/jp/minecraftuser/ecoframework/async/PayloadFrame.java:40-43 | A token that is neither "snapshot" nor a `long` changes no field. |
| PayloadFrame.NoUsableTokens | src/main/java/jp/minecraftuser/ecoframework/async/PayloadFrame.java:13-17 | With no usable token, the fields stay at -1, -1, -1 and false. |
| PayloadFrame.SnapshotTokenOnlySetsFlag | src/main/java/jp/minecraftuser/ecoframework/async/PayloadFrame.java:28-31 | "snapshot" in any case sets the flag and touches no number. |
| PayloadFrame.NumericTokenFillsNextField | src/main/java/jp/minecraftuser/ecoframework/async/PayloadFrame.java:32-39 | A number fills major, then minor, then revision. A fourth number is ignored. |
| PayloadFrame.ApplyTokensWellFormed | src/main/java/jp/minecraftuser/ecoframework/async/PayloadFrame.java:33-39 | Separator-free tokens keep the fill order and keep every field at -1 or non-negative. |
| PayloadFrame.ParsedVersionWellFormed | src/main/java/jp/minecraftuser/ecoframework/async/PayloadFrame.java:25-39 | Every parsed version has minor ≠ -1 ⇒ major ≠ -1 and revision ≠ -1 ⇒ minor ≠ -1. Every field is -1 or ≥ 0. |
| PayloadFrame.RenderSplits | src/main/java/jp/minecraftuser/ecoframework/async/PayloadFrame.java:86-103 | Splitting the rendered version gives back the printed numbers followed by "SNAPSHOT" when flagged. |
| PayloadFrame.ApplyTokensAppend | src/main/java/jp/minecraftuser/ecoframework/async/PayloadFrame.java:26-44 | Applying a concatenation of tokens applies the parts in turn. |
| PayloadFrame.PrintedTokensRebuild | src/main/java/jp/minecraftuser/ecoframework/async/PayloadFrame.java:26-44 | Applying the printed tokens to the unset version rebuilds the version. |
| PayloadFrame.ParseRenderRoundTrip | src/main/java/jp/minecraftuser/ecoframework/async/PayloadFrame.java:86-103 | Parsing what `getVersion()` renders reproduces all four fields of every well-formed version. |
| Utl.ColorPassPointwise | src/main/java/jp/minecraftuser/ecoframework/Utl.java:22 | The colour replacement keeps the length, turns every '&' that starts a colour pair into '§', and leaves every other character alone. |
| Utl.ColorPassLeavesNoPair | src/main/java/jp/minecraftuser/ecoframework/Utl.java:22 | No '&'-colour pair remains after the replacement. |
| Utl.ColorPassIdentity | src/main/java/jp/minecraftuser/ecoframework/Utl.java:22 | Text without a colour pair is left unchanged. |
| Utl.SpacePassShape | src/main/java/jp/minecraftuser/ecoframework/Utl.java:22 | Each U+3000 becomes two spaces, so the length grows by the number of U+3000 characters and none remain. |
| Utl.SpacePassIdentity | src/main/java/jp/minecraftuser/ecoframework/Utl.java:22 | Text without U+3000 is unchanged by the space replacement. |
| Utl.SpacePassKeepsNoPair | src/main/java/jp/minecraftuser/ecoframework/Utl.java:22 | Replacing spaces creates no colour pair. |
| Utl.RepColorIdempotent | src/main/java/jp/minecraftuser/ecoframework/Utl.java:21-23 | `repColor` output holds no colour pair and no U+3000, and applying `repColor` again changes nothing. |
| Utl.RepColorLength | src/main/java/jp/minecraftuser/ecoframework/Utl.java:21-23 | The output length is the input length plus the number of U+3000 characters. |
| Utl.ColorPassKeepsWideSpaces | src/main/java/jp/minecraftuser/ecoframework/Utl.java:21-23 | The colour replacement leaves the number of U+3000 characters unchanged, so the space replacement sees exactly the input's full-width spaces. |
| Utl.RepColorIdentity | src/main/java/jp/minecraftuser/ecoframework/Utl.java:21-23 | Text with no colour pair and no U+3000 is returned unchanged. |
| Utl.JoinSnoc | src/main/java/jp/minecraftuser/ecoframework/Utl.java:145-157 | Appending an argument adds exactly one space before it, except when it is the first. |
| Utl.MergeStrings | src/main/java/jp/minecraftuser/ecoframework/Utl.java:145-157 | The loop with the `first` flag builds the arguments joined by single spaces, and "" for none. |
| Utl.SplitJoin | src/main/java/jp/minecraftuser/ecoframework/Utl.java:145-157 | Splitting the merged text at spaces gives back the space-free arguments. |
| Utl.JoinLength | src/main/java/jp/minecraftuser/ecoframework/Utl.java:145-157 | The merged length is the sum of the lengths plus one separator between each neighbouring pair of arguments. |
| Utl.Deliver | src/main/java/jp/minecraftuser/ecoframework/Utl.java:45-49 | A null sender gets a broadcast. Any other sender gets a direct send of the same text. |
| Utl.SendPluginMessage | src/main/java/jp/minecraftuser/ecoframework/Utl.java:31-50 | A player gets yellow + "[plugin] " + reset + msg. Anyone else gets "[plugin] " + msg. |
| Utl.SendTagMessage | src/main/java/jp/minecraftuser/ecoframework/Utl.java:89-108 | The message is broadcast exactly when the sender is null. |
| Utl.TagShownOnlyToPlayers | src/main/java/jp/minecraftuser/ecoframework/Utl.java:89-108 | A player gets light-purple + "[tag] " + reset + msg. Anyone else gets exactly the plugin message, with the plugin name rather than the tag. |
| Utl.PluginMessageRecoverable | src/main/java/jp/minecraftuser/ecoframework/Utl.java:31-44 | The message is the tail after a prefix whose length depends only on the plugin name and the sender kind. |
| CommandFrame.NewCommand | src/main/java/jp/minecraftuser/ecoframework/CommandFrame.java:32-48 | The name is stored lower-cased. Blocks and the console are refused and players are allowed by default. There are no subcommands yet. |
| CommandFrame.SettersIndependent | src/main/java/jp/minecraftuser/ecoframework/CommandFrame.java:292-312 | Each permission setter affects only senders of its own kind. |
| CommandFrame.Find | src/main/java/jp/minecraftuser/ecoframework/CommandFrame.java:80-82 | The lookup finds a subcommand of exactly that name, and finds none exactly when no subcommand has it. |
| CommandFrame.PutIsMapUpdate | src/main/java/jp/minecraftuser/ecoframework/CommandFrame.java:63-65 | Adding a subcommand behaves as a map update: names stay unique, the new entry is found, and other names are unaffected. |
| CommandFrame.AddCommandFinds | src/main/java/jp/minecraftuser/ecoframework/CommandFrame.java:63-65 | After `addCommand`, the subcommand is found under its name and every other lookup is unchanged. |
| CommandFrame.StripFirst | src/main/java/jp/minecraftuser/ecoframework/CommandFrame.java:96-105 | The copy loop drops exactly the first argument. |
| CommandFrame.GateOpenIff | src/main/java/jp/minecraftuser/ecoframework/CommandFrame.java:111-132 | The worker may run if and only if the sender is not a refused console, a refused block, or a player who is barred or lacks the permission. |
| CommandFrame.Resolve | src/main/java/jp/minecraftuser/ecoframework/CommandFrame.java:93-107 | Delegation consumes a prefix of the arguments and leaves the rest. |
| CommandFrame.ResolveFollowsKeys | src/main/java/jp/minecraftuser/ecoframework/CommandFrame.java:93-107 | The node reached is the one named by the consumed arguments, taken as exact keys. Delegation stops where the next argument is not a key. |
| CommandFrame.Execute | src/main/java/jp/minecraftuser/ecoframework/CommandFrame.java:90-134 | `execute` delegates along exact keys, then either refuses, returning true after a message, or runs the worker on the remaining arguments. |
| CommandFrame.WorkerRunsIffGateOpen | src/main/java/jp/minecraftuser/ecoframework/CommandFrame.java:111-133 | The worker runs exactly when the resolved node's gate is open, and on exactly the remaining arguments. |
| CommandFrame.CheckRangeIff | src/main/java/jp/minecraftuser/ecoframework/CommandFrame.java:256-265 | The range check passes if and only if neither a non-negative minimum nor a non-negative maximum is violated. A negative bound disables its check. |
| CommandFrame.PreorderLength | src/main/java/jp/minecraftuser/ecoframework/CommandFrame.java:271-285 | The permission list of a subtree has one entry per node. |
| CommandFrame.PermissionList | src/main/java/jp/minecraftuser/ecoframework/CommandFrame.java:271-285 | The recursion appends the node's permission and then each subcommand's list, in pre-order, after what the list already held. |
| CommandFrame.PermissionListGrowth | src/main/java/jp/minecraftuser/ecoframework/CommandFrame.java:271-285 | The list grows by exactly the subtree size, and its own permission comes first. |
| CommandFrame.AfterLastColon | src/main/java/jp/minecraftuser/ecoframework/CommandFrame.java:159 | Taking the substring after the last ':' yields a colon-free suffix. |
| CommandFrame.TabStepFixed | src/main/java/jp/minecraftuser/ecoframework/CommandFrame.java:155-173 | Delegation goes only to an existing subcommand and never dereferences null. |
| CommandFrame.TabQualifiedNameFails | src/main/java/jp/minecraftuser/ecoframework/CommandFrame.java:172 | For "eco:sub", the code as written fetches a missing key and fails, while the corrected step delegates to "sub". |
| CommandFrame.TabStepAgreesUnqualified | src/main/java/jp/minecraftuser/ecoframework/CommandFrame.java:155-173 | Without a "plugin:" prefix, the written and the corrected delegation agree. |
| CommandFrame.MatchingIff | src/main/java/jp/minecraftuser/ecoframework/CommandFrame.java:193-197 | A key is offered if and only if it starts with the lower-cased typed text. |
| CommandFrame.TabCompletionLocal | src/main/java/jp/minecraftuser/ecoframework/CommandFrame.java:181-216 | A barred or unpermitted sender gets nothing. Otherwise the result starts with exactly the matching keys, in key order. It is exactly those keys when the hook returns null, and those keys followed by the hook's whole list otherwise. |
| CommandFrame.TabComplete | src/main/java/jp/minecraftuser/ecoframework/CommandFrame.java:152-231 | The loops compute exactly the completion described above, with the corrected delegation. |
| CommandFrame.FilterKeys | src/main/java/jp/minecraftuser/ecoframework/CommandFrame.java:193-197 | The result is exactly the keys that start with the typed text, in key order. |
| CommandFrame.AppendEach | src/main/java/jp/minecraftuser/ecoframework/CommandFrame.java:211-215 | The hook's candidates follow the keys, all of them and in their order. |
| CType.Get | src/main/java/jp/minecraftuser/ecoframework/db/CTYPE.java:14-143 | A type name is returned exactly for SQLite and MySQL, and null for any other backend. |
| CType.TypeNamesDistinct | src/main/java/jp/minecraftuser/ecoframework/db/CTYPE.java:14-143 | MySQL names are pairwise distinct. SQLite names coincide only for STRING and STRING_KEY. |
| CType.Primary | src/main/java/jp/minecraftuser/ecoframework/db/CTYPE.java:54-124 | The primary-key text is null exactly for STRING, STRING_KEY or BLOB on an unknown backend. |
| CType.PrimaryKeyRecoverable | src/main/java/jp/minecraftuser/ecoframework/db/CTYPE.java:145-146 | The key can be read back from every non-null primary-key text. |
| CType.PrimaryBackendIndependent | src/main/java/jp/minecraftuser/ecoframework/db/CTYPE.java:26-28 | LONG and FLOAT give "(key)" on every backend. AUTOINCREMENT gives the bare key. |
| PlayerDataStoreListener.LoadResultFalseIff | src/main/java/jp/minecraftuser/ecoframework/store/PlayerDataFileStoreListener.java:204-249 | `loadPlayerData` returns false only for ISLOGOUT on an existing record not marked logged out. A database failure before that query answers yields true. A failing commit after the query answered false leaves the result false. |
| PlayerDataStoreListener.Listener.constructor | src/main/java/jp/minecraftuser/ecoframework/store/PlayerDataFileStoreListener.java:26-42 | The work table starts empty and no worker exists. Then `reloadNotify()` runs on the current settings. The store is built exactly when the kind is "sqlite" or "mysql" in any case and the database connects. Otherwise there is no store and every setting is null. |
| PlayerDataStoreListener.NewListener | src/main/java/jp/minecraftuser/ecoframework/store/PlayerDataFileStoreListener.java:37-63 | No listener comes out exactly when the "userdatadb.db" key is missing, because the constructor's `reloadNotify()` dereferences null. Otherwise the result is a new listener with empty tables and no worker built or cancelled. Its store is built exactly when the kind is "sqlite" or "mysql" in any case and the database connects, with the matching store kind and the given settings. With no store, every setting is null. |
| PlayerDataStoreListener.Listener.ReloadNotify | src/main/java/jp/minecraftuser/ecoframework/store/PlayerDataFileStoreListener.java:49-84 | Settings and store change together, and only when the kind is sqlite or mysql in any case and the store is built. Otherwise both are kept. A missing kind fails. |
| PlayerDataStoreListener.Listener.Quit | src/main/java/jp/minecraftuser/ecoframework/store/PlayerDataFileStoreListener.java:98-129 | With no store, or a save already running, nothing changes. Otherwise a fresh worker is tabled first, then the logout is marked, the player is saved and the worker gets its payload. |
| PlayerDataStoreListener.Listener.LoadPlayerData | src/main/java/jp/minecraftuser/ecoframework/store/PlayerDataFileStoreListener.java:204-249 | The database is changed only for LOAD or START on an existing record. The result follows `LoadResult`. |
| PlayerDataStoreListener.Listener.RejectPlayer | src/main/java/jp/minecraftuser/ecoframework/store/PlayerDataFileStoreListener.java:137-161 | A refused login and a missing store are left alone. A tabled player, or one the database shows as not logged out, is kicked. Otherwise the login stays allowed (both directions). |
| PlayerDataStoreListener.Listener.Login | src/main/java/jp/minecraftuser/ecoframework/store/PlayerDataFileStoreListener.java:168-183 | Data is loaded only with a store and only while the login is still allowed. |
| PlayerDataStoreListener.Listener.Complete | src/main/java/jp/minecraftuser/ecoframework/store/PlayerDataFileStoreListener.java:189-195 | Cancels that player's worker and removes only that entry. An absent player makes the call fail. The table invariant is kept. |
| PluginFrame.LookupFixed | src/main/java/jp/minecraftuser/ecoframework/PluginFrame.java:261-270 | The corrected lookup finds the entry under the lower-cased name, or reports it unregistered, and never yields null. |
| PluginFrame.LookupAgreesOnLowerCase | src/main/java/jp/minecraftuser/ecoframework/PluginFrame.java:265-266 | For lower-case or unregistered names, the written and the corrected lookup agree. |
| PluginFrame.MixedCaseCommandFails | src/main/java/jp/minecraftuser/ecoframework/PluginFrame.java:265-266 | A command registered as "eco" and invoked as "Eco" passes `containsKey`, then gets null as written. The corrected lookup finds it. |
| PluginFrame.SetManager | src/main/java/jp/minecraftuser/ecoframework/PluginFrame.java:358-363 | Every frame of one table receives the manager. |
| PluginFrame.Plugin.constructor | src/main/java/jp/minecraftuser/ecoframework/PluginFrame.java:24-50 | Every table starts empty: the two dependency maps, the notify list and all six frame tables, so no frame is held yet. No manager is set. |
| PluginFrame.Plugin.RegisterCommand | src/main/java/jp/minecraftuser/ecoframework/PluginFrame.java:418-420 | A command frame is filed under its own lower-cased name. |
| PluginFrame.Plugin.AddRef | src/main/java/jp/minecraftuser/ecoframework/PluginFrame.java:187-190 | The referring plugin is filed under its name in `refMap`. |
| PluginFrame.Plugin.DelRef | src/main/java/jp/minecraftuser/ecoframework/PluginFrame.java:207-210 | The referring plugin's name is removed from `refMap`. |
| PluginFrame.Plugin.Register | src/main/java/jp/minecraftuser/ecoframework/PluginFrame.java:155-172 | A found plugin is filed in `plgMap`, and this plugin is filed in its `refMap`. When nothing is found, no map changes. Consistency of all dependency maps is kept. |
| PluginFrame.Plugin.Unregister | src/main/java/jp/minecraftuser/ecoframework/PluginFrame.java:196-201 | This plugin is removed from the target's `refMap` and the name from `plgMap`. An unfiled name makes the call fail. Consistency is kept. |
| PluginFrame.RegisterKeepsConsistent | src/main/java/jp/minecraftuser/ecoframework/PluginFrame.java:165-168 | Filing a loaded plugin in `plgMap` and this plugin in its `refMap` keeps, for every pair of loaded plugins: unique names, entries filed under their own names, and B among A's dependencies exactly when A is among B's dependents. |
| PluginFrame.UnregisterKeepsConsistent | src/main/java/jp/minecraftuser/ecoframework/PluginFrame.java:196-201 | Dropping the pair of entries keeps the same three facts for every pair of loaded plugins. |
| PluginFrame.Plugin.RegisterNotifiable | src/main/java/jp/minecraftuser/ecoframework/PluginFrame.java:312-316 | A frame is appended only if absent, so the list never holds duplicates. |
| PluginFrame.Plugin.RegisterManager | src/main/java/jp/minecraftuser/ecoframework/PluginFrame.java:355-364 | The manager is stored and handed to every frame of all six tables. |
| PluginFrame.SetManagers | src/main/java/jp/minecraftuser/ecoframework/PluginFrame.java:357-363 | After the six loops, every frame of every table holds the new manager. |
| PluginFrame.Plugin.OnCommand | src/main/java/jp/minecraftuser/ecoframework/PluginFrame.java:261-270 | An unregistered lower-cased name is not handled (false). Otherwise the command frame's `execute` decides. |
| PluginFrame.Plugin.OnTabComplete | src/main/java/jp/minecraftuser/ecoframework/PluginFrame.java:281-292 | An unregistered command gets an empty list. Otherwise the command frame's completion is returned. |

## Left out

- Threads, `synchronized`, `Thread.sleep` and the Bukkit scheduler are not modelled. Each synchronized block is one atomic step. The child's endless loop is cut into a given number of rounds. `childend` cannot change during one call, because another thread would set it.
- An interrupted sleep in the child loop is logged and the loop goes on. The model has no interruption. The loop's exits are `childend` and the `IllegalArgumentException` that `Thread.sleep` throws for a negative interval, which is modelled as the `aborted` result. Where that exception goes after leaving `run()` belongs to the Bukkit scheduler and is not modelled.
- AsyncProcessFrame.ProcessFrame.ReceiveData: a parent's `receiveData`, and a child's `sendData`, dereference a null link in the code. The model reports failure there instead of appending to the other half's queue.
- `BukkitRunnable.cancel` throwing `IllegalStateException` on a second cancel belongs to the host library and is not modelled.
- Java's partial construction is not modelled. `clone()` runs inside the parent constructor, before subclass fields are set. `MessageAsyncFrame` has no child-role constructor, so `NewMessageFrame` builds its child half like `AsyncProcessFrame`'s.
- `executeReceive`, `executeProcess`, `finalizeProcess`, `worker` and `getTabComplete` are hooks of the subclasses. The polled items are returned, the flag `finalized` is kept, the outcome `RunWorker` is returned, and `getTabComplete` is a function parameter. The hook receives the command node, the sender, the alias typed and the arguments. On delegation the alias becomes the first argument, as in the source. The Bukkit `Command` object, which is passed through unchanged, is not part of this model.
- Strings.Lower: ASCII case folding only. Java's `toLowerCase`/`equalsIgnoreCase` also fold non-ASCII letters.
- JavaLong.ParseLong: only ASCII digits are accepted, while Java also accepts other Unicode decimal digits.
- Bukkit permissions are modelled as membership in a set of permission strings. Wildcards and operator status are not modelled.
- `MessageFormat` substitution in the `Utl` overloads with parameters is not modelled; only the prefix concatenation is.
- The Bukkit chat colours are the section sign followed by the colour code ("§e", "§d", "§r").
- Utl.Deliver: console and command-block senders share one kind; the prefix depends only on player versus anything else.
- `HashMap` iteration order is modelled as insertion order for subcommands. Completion lists therefore come out in that order.
- The command tree is a value. `setAuth*` and `addCommand` return the updated node instead of mutating it.
- PlayerDataStoreListener.Listener.LoadPlayerData: the database is a given answer (reachable, record exists, marked logged out). The file copying, the SQL, commit, rollback and closing are not modelled. A failure before the operation's own query answers counts as "unreachable". A failure of the commit after it is not modelled apart, since it does not change the value returned.
- PlayerDataStoreListener.Listener.constructor: registering with the configuration's notify list (`conf.registerNotifiable`) is not modelled, since ConfigFrame is not part of this model. Later reloads are calls of `ReloadNotify` made by the environment.
- The asynchronous worker thread (`PlayerDataFileStoreAsyncThread`) and its payload, which poll file times against the wall clock, are not part of this model. A worker is an identity, and `complete` is called by the environment.
- PluginFrame.Plugin.Register: the plugin manager's lookup, including PlugMan's load command, is a given answer. The cast to `PluginFrame` is assumed to succeed. The found plugin is assumed to carry the requested name.
- `initialize`, `disable`, `reload`, `suspendPlugin`, `addRefPlugin`/`delRefPlugin` (the non-framework map) and the getters of `PluginFrame` are not modelled beyond the tables above.
- DatabaseFrame, the JDBC classes, ConfigFrame, LoggerFrame, BungeeController and the plugin commands are not part of this model. The configuration is a map from keys to values.

## Findings

| source | as written | input that shows it | evidently intended | confidence | as-written member | corrected member |
|---|---|---|---|---|---|---|
| src/main/java/jp/minecraftuser/ecoframework/CommandFrame.java:172 | Delegation checks the key with the "plugin:" prefix stripped (`check`), but fetches the subcommand with the unstripped `strings[0].toLowerCase()`. The result is null and the call dereferences it. | plugin "Eco", root "eco" with subcommand "sub", strings ["eco:sub", ""] | fetch `cmds.get(check)` and delegate to "sub" | medium, not executed | CommandFrame.TabStepAsWritten (shown by CommandFrame.TabQualifiedNameFails) | CommandFrame.TabStepFixed (used by CommandFrame.TabCompletion, CommandFrame.TabComplete) |
| src/main/java/jp/minecraftuser/ecoframework/PluginFrame.java:265-266 | `onCommand` tests `containsKey(name.toLowerCase())` but fetches `get(name)`. Command frames are filed under lower-cased names, so a mixed-case command name passes the test and then dereferences null. | command registered as "eco", `cmd.getName()` == "Eco" | fetch with the same lower-cased key, as `onTabComplete` does | medium, not executed | PluginFrame.LookupAsWritten (shown by PluginFrame.MixedCaseCommandFails) | PluginFrame.LookupFixed (used by PluginFrame.Plugin.OnCommand) |
