# OFbot2, verified

A Dafny model of the stateful kernels of the OFbot2 bot framework, with proofs
about every run of them: the plugin loader and the shared command table, the RPC
with sandboxed plugins, the order ledger plugin and its accounting, the rate
limiter and the gates in front of a command handler, the text codecs, the
reconnect supervisor, the TTL cache and the self-healing of tasks and workflows.

Check it with `dafny verify dfyconfig.toml`.

## How it is built

Code that updates fields or works in loops is a class or a method here, proved
against a function of its inputs or its old state; what the code is for is then
proved about that function, over whole runs. Processes that interleave are state
machines whose steps are what the code does between two suspensions. Clocks,
jitter, the outcome of a connect, of a handler or of a pipe write are parameters.

| file | kernel |
|---|---|
| `Manifests.dfy`, `DependencyOrder.dfy`, `CommandTable.dfy`, `PluginLoading.dfy` | load order, conflict resolution, the name/alias table, loading and unloading |
| `SandboxRpc.dfy`, `RpcBridge.dfy`, `PlainValues.dfy` | the two ends of the RPC as one system, the bridge object, the values that cross the pipes |
| `OrderLedger.dfy`, `Accounting.dfy`, `AccountViews.dfy`, `StableSort.dfy` | the life of an order, the four accounting views and their agreement |
| `RateLimiter.dfy`, `RateHistory.dfy`, `RateSpec.dfy`, `Cooldowns.dfy`, `CommandGate.dfy` | the limiter, its agreement with the full history, the cooldown table, the gates of a command |
| `CqCode.dfy`, `Tokenizer.dfy`, `ParamBinding.dfy`, `SplitMessage.dfy`, `PyText.dfy` | CQ codes, argument tokens, parameter binding, message chunks and pages |
| `Reconnect.dfy`, `TtlCache.dfy`, `SelfHealing.dfy`, `Options.dfy` | reconnect loops, the cache, the circuit breaker, an optional value |

## What was found on the way

Each of these follows from the code as it is and has a lemma below.

- Unloading a plugin restores the table exactly when none of its commands goes by
  a name, or keeps an alias, that was in the table before (`UnloadRestoresIff`),
  and can take a command away from another plugin (`UnloadSparesOthersIff`). Both
  happen when `system` comes late and declares a name that is an alias by then
  (`LateSystemClashes`).
- When all plugins load, all hold the commands they were told to keep or rename
  exactly when no effective name belongs to two of them (`KeepersHoldIff`).
  Resolution sees to that except for generated `plugin.command` names
  (`GeneratedSuffice`): one that another plugin declares and keeps costs one of
  the two its command (`GeneratedNameClashes`). Plugin names without a dot exclude
  clashes among generated names (`DotFreeNamesSeparate`). When plugins fail, the
  exact condition is that no later round, failed or not, registers a name of a
  loaded plugin (`LoadHoldsIff`).
- In the sandbox worker a request whose line cannot be written stays registered
  for ever; the framework side has no such leak (`PendingAfterReturn`), because
  what it turns into a line between registering and its `try` is plain data.
- The number of a deleted order is given out next exactly when it was one above
  the largest other number of the group (`NumberIsReusedIff`); deleting the newest
  order can also give out an older number again (`NumberIsNotReused`). Row ids are
  reused too (`RowIdReused`), so orders are told apart here by when they were
  recorded.
- Taking an order without a user id would store an order that counts as taken by
  nobody (`AnonymousTakeBreaks`). An import is not checked: it keeps the ledger
  sound exactly when its status and its player agree (`ImportKeepsIff`).
- In the statistics an id also collects orders of others whose label starts with it
  and a full-width bracket (`StatsAgree`).
- A page size of 0 fails, and a negative one drops items from the end
  (`PagesAreTheListIff`).
- A limit below 1 leaves an empty queue behind and never trims, so only then can
  the limiter's table outgrow its bound (`SizeBoundedIff`). A window above an hour
  would make trimming by age visible (`LongWindowForgets`); no written limit
  gives one (`ParseRateLimit`).
- Above 10,000 keys the cooldown table drops every key older than the cooldown of
  the command that was called. So a command with a short cooldown can let another
  one run too early, exactly when it drops the key (`GateOpensEarlyIff`); a key with
  the shortest cooldown is safe (`ShortestIsSpared`).
- A CQ code without parameters is not recognised and comes back as text
  (`BareCodeIsText`).
- Without a limit on the failures in a row, which `docs/DEVELOPMENT.md:523` calls
  unlimited and which is the default, or with one above 1024, the reconnect loop
  dies at the 1025th: 2 to the 1024th no longer converts to a float. The adapter
  goes on running, is not disabled and never connects again until it is started
  (`DiesIff`, `UnlimitedGivesUp`).
- `stop()` holds only if no start is scheduled that has not begun
  (`StopHoldsIff`). A superseded reconnect loop does not just leave, as the doc
  comment says: its end is invisible exactly when no connection time was recorded
  and, if its connect failed, the adapter was disconnected already
  (`StaleEndInvisibleIff`); otherwise it can reset the backoff of the newest loop
  (`StaleEndResetsBackoff`).
- Run logs survive re-enabling: a task falls back at its first failure, a
  workflow does so unless it was asked to run while disabled
  (`RelapsesAtOnceIff`).

## Model

| member | source | states |
|---|---|---|
| `DependencyOrder.Walk.Visit` | app/core/plugin.py:502-513 | a visit that returns leaves the plugin placed after all its enabled dependencies, adds only plugins it needs, and fails only with a real cycle, missing dependency or missing manifest |
| `DependencyOrder.ComputeOrder` | app/core/plugin.py:492-517 | an order comes back exactly when every enabled plugin has a manifest and there is no cycle; it holds each enabled plugin once, dependencies first, and a plugin precedes an alphabetically smaller one only when one no larger needs it; an error names its cause |
| `DependencyOrder.OrderExcludesCycles` | app/core/plugin.py:505-507 | no dependency-respecting order of all enabled plugins exists when there is a cycle |
| `DependencyOrder.PathCloses` | app/core/plugin.py:503-504 | meeting a plugin on the chain of open visits means a cycle through it |
| `DependencyOrder.SortNames` | app/core/plugin.py:508-515 | the names of a set in alphabetical order, each once |
| `CommandTable.ClaimsAreKeepers` | app/core/plugin.py:524-532 | the claims computed plugin by plugin are the declarative rule: `system` keeps what it declares, any other name goes to its first declarer |
| `CommandTable.ComputeResolution` | app/core/plugin.py:519-547 | each command of each plugin is told to skip exactly when the manifest asks for it, otherwise to keep exactly when the plugin is `system`, or is the first to go by the name while `system` does not, and otherwise to rename |
| `CommandTable.CommandRegistry.Register` | app/core/commands.py:268-289 | the name and all aliases lead to the command, are recorded for the plugin, and nothing else changes |
| `CommandTable.CommandRegistry.UnregisterPlugin` | app/core/commands.py:301-308 | the recorded names are gone, aliases of commands found under them may be, nothing else changes; the count is the number of recorded names |
| `CommandTable.CommandRegistry.CurrentClaims` | app/core/plugin.py:549-556 | the claims are backed by table entries, and one entry per command name is covered with all its aliases |
| `CommandTable.CommandRegistry.RegisterDeclared` | app/core/plugin.py:807-884 | one command: skipped, refused for a clash inside the plugin or a missing handler, or entered under its effective name with the aliases nobody else claims |
| `CommandTable.OneCommandSays` | app/core/plugin.py:807-884 | which it is, with which error, and what the table holds afterwards name by name |
| `CommandTable.CommandRegistry.RegisterDeclarative` | app/core/plugin.py:797-893 | registers feature by feature, each time its commands and then its tasks and listeners, and stops at the first that fails |
| `CommandTable.FeaturesAreList` | app/core/plugin.py:804-888 | which registers the commands reached in one list: all of them, or those up to the first feature whose tasks or listeners raise, and then it fails even with every command in |
| `Manifests.EffectiveSays` | app/core/plugin.py:144-158 | the commands of a plugin are those of its features, or the ones at the top of the manifest when it lists none |
| `CommandTable.RegisterAllAppend` | app/core/plugin.py:804-884 | registering two lists in a row is registering their concatenation, failures included |
| `PluginLoading.GeneratedSuffice` | app/core/plugin.py:537-546 | when generated `plugin.command` names are separate, resolution gives every effective name to one plugin only |
| `PluginLoading.DotFreeNamesSeparate` | app/core/plugin.py:818-820 | plugin names without a dot can never generate the same `plugin.command` name |
| `PluginLoading.RegisterAllKeeps` | app/core/plugin.py:804-884 | however far registration gets, the names it recorded are placed, every handled command is covered and other entries are untouched |
| `PluginLoading.RegisterFeaturesKeeps` | app/core/plugin.py:797-893 | the same for whole features, where a task or listener may raise after any of the commands |
| `PluginLoading.RegistersIff` | app/core/plugin.py:806-884 | the commands of a plugin register exactly when the handlers of those not skipped are found and no later one goes by, or lists, what an earlier one put into the table |
| `PluginLoading.FeaturesRegisterIff` | app/core/plugin.py:804-888 | a plugin registers exactly when, besides, no task or listener raises |
| `PluginLoading.UnregisterExactly` | app/core/commands.py:301-308 | unregistering right after registering removes the registered names and nothing else |
| `PluginLoading.UnloadUndoes` | app/core/commands.py:301-308 | however far loading got, unloading restores the table exactly when no name that was registered was in it before |
| `PluginLoading.UnloadRestoresIff` | app/core/commands.py:268-308 | a complete load and an unload restore the table exactly when no command that is not skipped goes by an effective name, or keeps an alias, that was in the table |
| `PluginLoading.UnloadSparesOthersIff` | app/core/commands.py:301-308 | unloading takes only own names exactly when each recorded name that is still there leads to an own command |
| `PluginLoading.LoadRoundKeeps` | app/core/plugin.py:610-627 | each round of the loading loop, whether the plugin loads, raises at a command, task or listener, or cannot be imported, keeps the whole-table invariant |
| `PluginLoading.TableHoldsKeepers` | app/core/plugin.py:519-547 | under the invariant every kept name leads to its keeper and every renamed one to its plugin under the dotted name |
| `PluginLoading.LoadHoldsKeepers` | app/core/plugin.py:610-627 | when no effective name belongs to two plugins, every plugin that loads holds each command it was told to keep or rename, also when `system` comes late or other plugins fail |
| `PluginLoading.KeepersHoldIff` | app/core/plugin.py:519-547 | when all plugins load, all hold what they were told exactly when no effective name belongs to two of them |
| `PluginLoading.LoadHoldsIff` | app/core/plugin.py:610-627 | whichever plugins fail to load, those that loaded all hold what they were told exactly when no later round, failed or not, registered a name of theirs |
| `PluginLoading.AllLoad` | app/core/plugin.py:610-627 | when each plugin can be imported, finds its handlers, registers its tasks and listeners and spells no two commands alike, all of them load |
| `PluginLoading.RoundLoadsIff` | app/core/plugin.py:610-627 | in its round a plugin loads exactly when it can be imported and registers, judged by the claims of the table at that moment |
| `PluginLoading.EntriesAreDeclared` | app/core/plugin.py:807-820 | after a whole load every entry of the table leads to a command that a loaded plugin declares and does not ask to skip, under its own or dotted name or an alias of it |
| `PluginLoading.SkippedStaysOut` | app/core/plugin.py:807-814 | a command that its manifest asks to skip has put neither its name nor its dotted name into the table, unless another command of the plugin is spelled so |
| `PluginLoading.LoadEnabled` | app/core/plugin.py:585-627 | end to end from an empty table: fails exactly on a cycle; otherwise visits every enabled plugin in dependency order, each round loads or leaves out its plugin as importing and registering decide, and the statements above hold of the final table |
| `PluginLoading.ClashLosesOne` | app/core/plugin.py:818-820 | when two loaded plugins own one name, no table gives both what they were told |
| `PluginLoading.GeneratedNameClashes` | app/core/plugin.py:818-820 | a generated name that another plugin declares and keeps belongs to both, at a concrete set of manifests |
| `PluginLoading.LateSystemClashes` | app/core/commands.py:268-308 | a late `system` takes over an alias: unloading it does not bring the alias back, unloading the other plugin takes the command of `system` |
| `PluginLoading.LoneLoadTakesNothing` | app/core/plugin.py:558-578 | a plugin loaded on its own overwrites nothing unless a generated dotted name is in use, and unloading it restores the table |
| `PluginLoading.AloneSays` | app/core/plugin.py:558-578 | on its own a plugin is told to skip what its manifest asks to skip, otherwise to keep exactly the names nobody else claims |
| `SandboxRpc.StepKeeps` | app/core/plugin_ipc.py:188-274 | every step of either process keeps the invariant of both: bookkeeping, what is on the pipes and in tasks, ages of nested calls |
| `SandboxRpc.RunKeeps` | app/core/plugin_ipc.py:188-274 | so does every interleaving of sends, deliveries, timeouts, nested calls, returns, callers that give up while draining, and reader exits |
| `SandboxRpc.RunSettles` | app/core/plugin_ipc.py:222-228 | a future that is done is never completed again, whatever happens later |
| `SandboxRpc.RunMovesOn` | app/core/plugin_worker.py:188-207 | a request only moves forward: an answer that was produced is delivered unchanged or not at all |
| `SandboxRpc.OwnAnswerOnly` | app/core/plugin_ipc.py:222-228 | in every run a call that completed with an answer did so because the peer's task for this very request finished with it and wrote it, although both sides number from 1 on the same pipes |
| `SandboxRpc.WaitingEndsIff` | app/core/plugin_ipc.py:203-247 | a waiting call is completed with an answer exactly when its end reads that answer while it is registered, cancelled exactly when it times out, failed exactly when the framework's reader ends while it is registered |
| `SandboxRpc.RegisteredIff` | app/core/plugin_ipc.py:188-247 | when a number is registered after a step: from the sending on, until its answer is read, its caller resumes or the framework's reader ends |
| `SandboxRpc.PipesAndTasks` | app/core/plugin_worker.py:188-236 | what each step writes to and reads from the pipes, and which requests have a task |
| `SandboxRpc.ReturnsAnswered` | app/core/plugin_ipc.py:203-228 | a call that waits in flight and has returned after deliveries, answers and resumptions alone returned with the answer on its way, or with the one its task finished with |
| `SandboxRpc.PendingAfterReturn` | app/core/plugin_worker.py:121-140 | what stays registered after its call returned is exactly a worker request that could not be written |
| `SandboxRpc.ReaderExitFailsAll` | app/core/plugin_ipc.py:240-247 | when the framework's reader ends nothing is pending, every waiting call that was pending has failed, and later lines cannot change that |
| `SandboxRpc.LateResponseDropped` | app/core/plugin_ipc.py:223-224 | a response to a call that returned changes no future and no registration |
| `SandboxRpc.SomethingMoves` | app/core/plugin_worker.py:216-236 | no cyclic wait: with calls in flight, readers alive and nothing lost, a delivery, answer or return is enabled |
| `SandboxRpc.ProgressWorks` | app/core/plugin_worker.py:188-236 | each such step uses up work, so only finitely many are possible without new requests |
| `SandboxRpc.Drains` | app/core/plugin_ipc.py:209-274 | all calls in flight, however nested, can return within that many steps, and those that wait return with their own answers |
| `RpcBridge.Bridge.Request` | app/core/plugin_ipc.py:188-207 | the object's counter, table and futures after a request was written, or could not be, are those of the protocol's call, for the framework side and the worker |
| `RpcBridge.Bridge.ReadLine` | app/core/plugin_ipc.py:215-232 | a response to a registered waiting call leaves its future completed with the answer of the line and unregisters it; no other future changes, and a request is handed to a task |
| `RpcBridge.Bridge.Return` | app/core/plugin_ipc.py:206-207 | a caller that resumes, by answer, failure, timeout or out of a failing or cancelled drain, unregisters its own number and nothing else |
| `RpcBridge.Bridge.TimeOut` | app/core/plugin_ipc.py:203-205 | a timeout cancels the waiting future and leaves everything else |
| `RpcBridge.Bridge.StopReading` | app/core/plugin_ipc.py:240-247 | the loop over the pending futures fails exactly those still waiting and empties the table |
| `PlainValues.PlainIff` | app/core/plugin_ipc.py:29-61 | conversion changes exactly the values that are not plain, and converting twice is converting once |
| `PlainValues.ToPlainIsPlain` | app/core/plugin_ipc.py:29-61 | the result has only strings, scalars, lists and dictionaries with distinct string keys, all the way down |
| `PlainValues.BecomesSays` | app/core/plugin_ipc.py:29-61 | what becomes of lists, dictionaries, records, segments, messages and opaque values, item by item and key by key, the last value counting for a repeated key |
| `PlainValues.MessageSays` | app/core/plugin_ipc.py:64-78 | what is read back from nothing, a string, a dictionary with or without the special key |
| `PlainValues.SegmentsSay` | app/core/plugin_ipc.py:70-77 | the segments are those of the dictionaries in the list, in order; other elements are dropped |
| `PlainValues.MessageRoundTrip` | app/core/plugin_ipc.py:37-78 | a message that crosses the pipes comes back segment by segment, unchanged exactly when its data was plain |
| `OrderLedger.NextNumberIsFree` | plugins/order_ledger/services.py:218-225 | the next number is above every number of the group |
| `OrderLedger.StepKeepsIff` | plugins/order_ledger/handlers.py:93-435 | a step keeps distinct ids, distinct numbers per group and sound states exactly when it is refused or names its user |
| `OrderLedger.RunKeeps` | plugins/order_ledger/handlers.py:93-435 | so does any run of record, take, complete, cancel, reprice, delete, purge and overdue steps |
| `OrderLedger.StepLives` | plugins/order_ledger/services.py:338-445 | every row after a step is new or continues a row: same identity, row id and creator, no completion without a take, parties fixed once taken |
| `OrderLedger.CompletedForGood` | plugins/order_ledger/handlers.py:259-325 | a completed order stays completed with the same row, parties and times for as long as it exists; only its price can change |
| `OrderLedger.AnonymousTakeBreaks` | plugins/order_ledger/services.py:369-373 | without a user id a take stores an order taken by nobody |
| `OrderLedger.RowIdReused` | plugins/order_ledger/models.py:37 | the row id of a deleted last row is given to another order |
| `OrderLedger.NumberIsReusedIff` | plugins/order_ledger/services.py:218-225 | the number of a deleted order is the next one given out exactly when it was one above the largest other number of the group |
| `OrderLedger.NumberIsNotReused` | plugins/order_ledger/services.py:218-225 | three orders, the second deleted and then the third: the next number is 2 |
| `OrderLedger.ImportKeepsIff` | plugins/order_ledger/services.py:240-291 | an import with preset fields keeps the invariant exactly when they agree: taken or completed with a player, untaken without, never withdrawn, with a creator and a price of at least 0 |
| `OrderLedger.ImportSays` | plugins/order_ledger/services.py:228-291 | each field of an imported order: the number asked for or the next one, the preset value or that of a new order |
| `OrderLedger.RecordSays` | plugins/order_ledger/handlers.py:93-152 | recording appends one untaken order of the user with the next number, unless the group is missing or the price negative |
| `OrderLedger.TakeSays` | plugins/order_ledger/services.py:358-378 | taking works exactly on an untaken order and stores user, nickname and time; the rest of the order and all others stay |
| `OrderLedger.CompleteSays` | plugins/order_ledger/handlers.py:259-289 | completing, by command or in plain text, works exactly on a taken order for its creator, its player or an administrator, and stores status, time and confirmer |
| `OrderLedger.CancelTakeSays` | plugins/order_ledger/handlers.py:299-325 | giving back works exactly on a taken order for its player or an administrator, and clears player and time |
| `OrderLedger.RepriceSays` | plugins/order_ledger/handlers.py:395-420 | only the creator or an administrator sets a price of at least 0, and nothing else changes |
| `OrderLedger.UnknownOrder` | plugins/order_ledger/handlers.py:242-264 | an order that does not exist is refused and nothing changes |
| `OrderLedger.OverdueSays` | plugins/order_ledger/services.py:416-434 | exactly the taken orders of the group whose take is so many days ago become untaken, without player, with the time of the take left |
| `OrderLedger.RemindersSay` | plugins/order_ledger/services.py:407-445 | the reminders are exactly the forgotten orders of the group, by number |
| `OrderLedger.OrderStore.CreateOrder` | plugins/order_ledger/services.py:228-291 | without a requested number the order is stored under the next one; with one it fails exactly if the number is taken, and then changes nothing; preset fields replace the first values |
| `OrderLedger.OrderStore.RecordOrder` | plugins/order_ledger/handlers.py:93-152 | refuses a missing group or negative price, otherwise adds one untaken order |
| `OrderLedger.OrderStore.Handle` | plugins/order_ledger/handlers.py:242-325 | taking, completing, confirming in plain text, cancelling and repricing change the addressed row as its state and the user's rights allow, or nothing |
| `OrderLedger.OrderStore.DeleteOrder` | plugins/order_ledger/services.py:380-392 | removes the addressed row for an administrator, or nothing |
| `OrderLedger.OrderStore.CheckOverdue` | plugins/order_ledger/services.py:407-445 | the loop over the listing gives back the overdue orders and collects the forgotten ones of the listing, in its order |
| `OrderLedger.ListingRows` | plugins/order_ledger/services.py:304-335 | the listing of a group is its rows, none added or missing, by number |
| `StableSort.SortSorts` | plugins/order_ledger/services.py:746-748 | the sort is ascending and a permutation |
| `StableSort.SortStable` | plugins/order_ledger/services.py:746-748 | entries with equal keys keep their order |
| `Accounting.PostHolds` | plugins/order_ledger/services.py:467-490 | a summary built entry by entry has one entry per key, holding exactly what was posted to it, and in total what was posted |
| `Accounting.PostNames` | plugins/order_ledger/services.py:467-490 | entries are in the order of the first posting under their key and keep its name |
| `Accounting.OrderPosts` | plugins/order_ledger/services.py:464-744 | what each of the four folds takes from one order: key, name and amount by the order's own fields |
| `Accounting.SummaryShares` | plugins/order_ledger/services.py:464-490 | the commission summary posts to each party exactly its earnings in that role |
| `Accounting.SummaryTotal` | plugins/order_ledger/services.py:464-490 | in total it posts the fees of all orders but those that name nobody in the role |
| `Accounting.IncomeShares` | plugins/order_ledger/services.py:730-744 | the ranking posts to each party its earnings in both roles on completed orders |
| `Accounting.StatsShares` | plugins/order_ledger/services.py:692-702 | the statistics post to each id, over all its nicknames, its earnings in the role and the fees of the strays: orders of others whose label starts with the id and a bracket |
| `Accounting.StrayIff` | plugins/order_ledger/services.py:694-700 | for an id without a bracket these are exactly the orders whose party starts with the id and a bracket, or is missing while the id is the stand-in |
| `Accounting.FoldOrders` | plugins/order_ledger/services.py:460-490 | the one pass over the orders computes revenue, both summaries and the line of each order |
| `Accounting.BuildCommissionData` | plugins/order_ledger/services.py:450-524 | revenue, summaries, a line with four shares per order, four totals, the difference between revenue and their sum, and whether it is at most a cent |
| `Accounting.DetailsAddUp` | plugins/order_ledger/services.py:464-510 | the shares on the lines add up, per role, to the total of the summary plus the fees of the orders that name nobody |
| `Accounting.LineSays` | plugins/order_ledger/services.py:488-498 | one line per order, in order, with its price, its four fees, the nicknames and the time |
| `Accounting.FundsAddUp` | plugins/order_ledger/services.py:488-505 | with exact fees the lines give each of the two funds its total |
| `Accounting.TotalsSay` | plugins/order_ledger/services.py:500-505 | the totals of the two roles are the sums of their summaries, those of the two funds their own ratio of the revenue |
| `Accounting.DifferenceSays` | plugins/order_ledger/services.py:506-519 | the difference is how far the four totals together are from the revenue, on either side, and consistent means up to a cent |
| `Accounting.DifferenceIs` | plugins/order_ledger/services.py:505-519 | for any orders and ratios: the difference is what the ratios miss of the revenue plus the shares of orders that name no creator or no player, in absolute value |
| `Accounting.LedgerReconciles` | plugins/order_ledger/services.py:450-524 | for completed orders of a ledger after any run the difference is what the ratios miss of the revenue, 0 when they add up to 1, and consistent exactly when that is at most a cent |
| `Accounting.CompletedCounts` | plugins/order_ledger/handlers.py:93-289 | an order that is recorded, taken and completed by someone who may is one the accounts count, with its price and both parties |
| `AccountViews.BuildStats` | plugins/order_ledger/services.py:684-708 | one pass over completed orders gives count, revenue, both labelled summaries and the two shares |
| `AccountViews.StatSays` | plugins/order_ledger/services.py:703-708 | the two funds of the statistics get their own ratio of the revenue |
| `AccountViews.BuildRank` | plugins/order_ledger/services.py:711-749 | one pass over all orders gives the top ten by taken, by recorded and by income, where only completed orders earn |
| `AccountViews.TopTenIsTop` | plugins/order_ledger/services.py:745-749 | whoever is left out of a top ten is no better than anyone on it, and only when it is full |
| `AccountViews.TopTenSorted` | plugins/order_ledger/services.py:745-749 | a top ten is sorted best first and as long as there are entries, up to ten |
| `AccountViews.RankSays` | plugins/order_ledger/services.py:745-749 | whoever has more orders, or earned more, stands in front, and nobody left out has more than anyone listed |
| `AccountViews.BuildAccount` | plugins/order_ledger/services.py:752-796 | earnings per role of one person over completed orders, and a receipt for each, latest completion first |
| `AccountViews.OneReceiptMore` | plugins/order_ledger/services.py:759-785 | an order adds a receipt with its fee for each role the person has in it |
| `AccountViews.RecordsSorted` | plugins/order_ledger/services.py:786 | a receipt never stands behind an earlier one, those without a time come last |
| `AccountViews.RecordsAddUp` | plugins/order_ledger/services.py:757-793 | the receipts of a role, sorted as they are, add up to the earnings in it |
| `AccountViews.RecordsKept` | plugins/order_ledger/services.py:786 | sorting neither loses nor repeats a receipt |
| `AccountViews.ViewsAgree` | plugins/order_ledger/services.py:450-796 | for each id and whatever the fee function: account earnings equal the commission summary of the completed orders, and their sum is the income before the cut to ten |
| `AccountViews.StatsAgree` | plugins/order_ledger/services.py:684-708 | the statistics entries of an id, summed over its nicknames, equal the same earnings plus the fees of the strays |
| `AccountViews.NoStrays` | plugins/order_ledger/services.py:694-700 | an id without a bracket has none, unless it is the stand-in or another id of a completed order starts with it and a bracket |
| `AccountViews.CountsAgree` | plugins/order_ledger/services.py:450-796 | the order counts of the summaries are the number of orders that name the id |
| `RateLimiter.SlidingWindowRateLimiter.Allow` | app/core/security.py:21-30 | pops what left the window, answers by what remains, appends and trims only when it grants |
| `RateLimiter.SlidingWindowRateLimiter.Trim` | app/core/security.py:32-49 | over its bound the table loses keys with nothing in the last hour, then the surplus with the smallest first stamps |
| `RateLimiter.TrimSays` | app/core/security.py:28-49 | nothing is dropped unless a call was granted and the table is too large; then a key stays exactly when it has a time in the last hour and is not among the surplus |
| `RateLimiter.PrefixIsForced` | app/core/security.py:42-49 | the first keys of the sorted list are the ones with the smallest first stamps, and as many as asked for |
| `RateHistory.SweepInvisible` | app/core/security.py:32-41 | for windows of at most an hour and keys not evicted for room, trimming by age changes no answer |
| `RateHistory.QueueIsExact` | app/core/security.py:21-30 | with one window per key the queue answers like the full history of accepts |
| `RateHistory.SlidingWindowIsExact` | app/core/security.py:21-49 | from an empty table a call is refused exactly when `limit` accepts lie in the window that ends with it |
| `RateHistory.AtMostLimit` | app/core/security.py:21-30 | any half-open interval of the window's length, closed at either end, holds at most `limit` accepts |
| `RateHistory.LimiterBound` | app/core/security.py:21-49 | the same for what the trimming limiter lets through |
| `RateHistory.SizeBoundedIff` | app/core/security.py:32-49 | a call leaves the table within its bound exactly when the limit is at least 1 or no new queue was needed |
| `RateHistory.SizeBounded` | app/core/security.py:32-49 | over any run with limits of at least 1 the table stays within its bound |
| `RateHistory.LongWindowForgets` | app/core/security.py:36-41 | with a two-hour window an accept is forgotten inside its window |
| `RateSpec.ParseRateLimit` | app/core/security.py:58-74 | whatever is written, the window is a second, a minute or an hour |
| `RateSpec.LimitSays` | app/core/security.py:58-74 | a count, a slash and the name of a unit in any case, with white space around, are read as that count and that window |
| `RateSpec.WindowSays` | app/core/security.py:61-71 | the names of a second, a minute and an hour, and no others |
| `RateSpec.GroupsSay` | app/core/security.py:60-61 | a number goes on with a digit, with one underscore before it or none, and with nothing else |
| `RateSpec.DefaultSays` | app/core/security.py:72-74 | without a slash, a number in front of it or a unit behind it, the limit is 20 a minute |
| `CommandGate.CommandDispatcher.Handle` | app/core/commands.py:378-640 | the gates in their order decide the outcome, only the cooldown and the limiter gate that were reached change state, and they drop only keys they must |
| `CommandGate.InvokedIff` | app/core/commands.py:378-640 | the handler runs exactly when the arguments are not too long, the rules pass, the user is permitted and the parameters bind, and, under a policy, the user is not blocked, the text is clean, the feature is on, the cooldown is over and the limiter granted |
| `CommandGate.RefusalNamesFirst` | app/core/commands.py:378-640 | every refusal names the first gate that is closed |
| `CommandGate.RefusedEarly` | app/core/commands.py:378-525 | a refusal before the limiter leaves the limiter's table, one at or before the cooldown the cooldown table too; without a policy nothing changes |
| `CommandGate.KeysApart` | app/core/commands.py:469-525 | users without a colon in their id, and commands of one user, have keys of their own |
| `Cooldowns.CooldownTable.Check` | app/core/security.py:115-122 | passes exactly when the cooldown is over, then starts it again and trims the table |
| `Cooldowns.CooldownTable.Evict` | app/core/security.py:124-134 | drops every key whose last run is the given cooldown ago, then the surplus with the smallest stamps |
| `Cooldowns.CheckSays` | app/core/security.py:115-134 | a check that fails changes nothing; one that passes stamps its key, and only above 10,000 keys drops others |
| `Cooldowns.StaysSmall` | app/core/security.py:115-134 | after a check the table is within its 10,000 keys again |
| `Cooldowns.OpensEarlyIff` | app/core/security.py:115-134 | a check for another key lets a key pass before its own cooldown is over exactly when it passes itself and drops the key, by force or for being as old as the other cooldown |
| `CommandGate.InvokedOnlyIfGranted` | app/core/commands.py:504-525 | the handler runs only for calls the limiter granted |
| `CommandGate.HandlerRateBound` | app/core/commands.py:504-525 | for one user and command the handler runs at most `limit` times in any half-open interval of the window's length |
| `CommandGate.HandlerCooldown` | app/core/commands.py:469-486 | two runs of a handler for one user are at least the cooldown apart, as long as the table does not drop the key while that cooldown runs |
| `CommandGate.ShortestIsSpared` | app/core/security.py:124-134 | which it never does to a key with the shortest cooldown of all, unless by force |
| `CommandGate.GateOpensEarlyIff` | app/core/commands.py:469-486 | a message of another key opens the gate before the cooldown is over exactly when it drops the key |
| `CqCode.ParseCq` | app/adapters/onebot.py:358-382 | the pass over the matches with a moving position computes the segments of the recursive definition |
| `CqCode.FoundWhere` | app/adapters/onebot.py:359-361 | a found code matches at its place, behind what precedes and in front of what follows it |
| `CqCode.HeadIff` | app/adapters/onebot.py:359 | a text starts with a code exactly when it starts with the marker, a kind, a comma and a body up to a closing bracket, neither empty |
| `CqCode.FoundFirst` | app/adapters/onebot.py:361 | no position in front of the code that is found starts one |
| `CqCode.PartSays` | app/adapters/onebot.py:370-373 | a part `key=value` sets its key, both stripped, and a part without `=` is skipped |
| `CqCode.AtSays` | app/adapters/onebot.py:29-40 | only an `at` code is changed, and only by its account: that under `user_id`, else that under `qq` |
| `CqCode.AtIsRead` | app/adapters/onebot.py:349-382 | `[CQ:at,qq=x]` mentions the account `x`, for any `x` |
| `CqCode.UnescapeEncode` | app/adapters/onebot.py:350-356 | the four replacements in a row undo the escaping of text and of values |
| `CqCode.EntitiesSay` | app/adapters/onebot.py:350-356 | which entity stands for which of the four characters |
| `CqCode.ReplaceDecodes` | app/adapters/onebot.py:350-356 | each replacement decodes exactly one character and leaves the other entities alone |
| `CqCode.FindAfter` | app/adapters/onebot.py:359-361 | escaped text never starts a code |
| `CqCode.FieldsOfParams` | app/adapters/onebot.py:369-373 | reading printed parameters gives the map they stand for, last value first when a key repeats |
| `CqCode.RoundTrip` | app/adapters/onebot.py:349-382 | parsing what was printed gives its meaning for any texts and values: runs of text become one segment, keys and values are stripped, `at` is normalised |
| `CqCode.PiecesComeBack` | app/adapters/onebot.py:349-382 | non-empty texts with a code between any two come back piece by piece |
| `CqCode.BareCodeIsText` | app/adapters/onebot.py:359 | a code without parameters comes back as text |
| `Tokenizer.TokenizeArgs` | app/core/parsing.py:38-64 | the loop with its flags computes the fold over the characters, and plain words for an open quote |
| `Tokenizer.TokensConserve` | app/core/parsing.py:45-64 | for balanced text the tokens, none empty, are in order exactly the text without delimiting quotes and unquoted white space |
| `Tokenizer.PlainIsWords` | app/core/parsing.py:59-61 | text without quotes, or with an open one, is split at white space |
| `Tokenizer.BalancedSays` | app/core/parsing.py:46-51 | a quote behind balanced text opens, quotes of the other kind inside it count for nothing, and the next of its kind closes |
| `Tokenizer.QuotedRoundTrip` | app/core/parsing.py:38-64 | tokens written in a quote they do not contain, with a space between two, come back |
| `ParamBinding.BindParams` | app/core/parsing.py:100-155 | sorting the tokens and going through the parameters computes the recursive definition, refusals included |
| `ParamBinding.TokenSays` | app/core/parsing.py:108-118 | a token `key=value` goes under its key if some parameter has that name, the last one counting, otherwise the key is unknown; any other token is positional |
| `ParamBinding.RefusedBy` | app/core/parsing.py:120-144 | the first parameter without a value refuses, as missing or as a bad value |
| `ParamBinding.ConcludeSays` | app/core/parsing.py:146-155 | then a required parameter that was not reached, then tokens left over, then unknown names refuse, in this order |
| `ParamBinding.RestSays` | app/core/parsing.py:131-134 | a parameter that takes the rest gets its token and all positional tokens left, joined by blanks, whatever follows it |
| `ParamBinding.BindIff` | app/core/parsing.py:106-155 | without a rest parameter and with distinct names, binding succeeds exactly when nothing is unknown or surplus and every parameter has a value |
| `ParamBinding.BoundValues` | app/core/parsing.py:120-145 | then every parameter and nothing else is bound, each to its named token, its positional one or its default |
| `ParamBinding.ValueSays` | app/core/parsing.py:120-145 | the value of a parameter: by its named token, else by the positional one whose turn it is, else by its default |
| `ParamBinding.EveryTokenUsedOnce` | app/core/parsing.py:119-127 | each positional token is taken by exactly one parameter, and they are taken in order |
| `SplitMessage.Split` | app/services/preset_utils.py:35-56 | the loop computes the recursive cutting for the limit raised to 200 |
| `SplitMessage.Cut` | app/services/preset_utils.py:44-51 | a cut lies in the second half of the chunk |
| `SplitMessage.CutSays` | app/services/preset_utils.py:44-51 | the cut is behind the last newline of the second half, without one behind its last blank, without either at the limit |
| `SplitMessage.SplitLosesBlanksOnly` | app/services/preset_utils.py:42-55 | the text is its chunks in order with nothing but white space between and behind them |
| `SplitMessage.OnlyFirstEmpty` | app/services/preset_utils.py:42-55 | only the first chunk can be empty, exactly when a long text is blank up to its first cut |
| `SplitMessage.SplitSizes` | app/services/preset_utils.py:35-56 | no chunk exceeds the limit and there is at most one per half a limit, and one more |
| `SplitMessage.PagesAreTheListIff` | app/services/preset_utils.py:22-27 | all pages in order are the list exactly when the page size is positive or the list is empty; a size of 0 fails |
| `SplitMessage.PageCountSays` | app/services/preset_utils.py:23-24 | the number of pages is the least that holds all items, and 1 for none |
| `SplitMessage.PaginateSays` | app/services/preset_utils.py:22-27 | a page number below 1 means the first page, one above the last the last |
| `Reconnect.Adapter.Begin` | app/adapters/base.py:112-118 | a new loop gets the next generation and the adapter runs |
| `Reconnect.Adapter.Resume` | app/adapters/base.py:117-166 | from the end of a connect to the next suspension: status, reset, generation check, then disable, die of the overflow or sleep |
| `Reconnect.ResumeSays` | app/adapters/base.py:117-166 | which loops end, which sleep, what is counted and what the adapter's status is after a connect; after one that returned the count is 1 |
| `Reconnect.CarriedSays` | app/adapters/base.py:119-142 | the count starts again after a connect that returned, or failed after having held for a minute |
| `Reconnect.OtherEventsSay` | app/adapters/base.py:95-118 | what starts, beginning loops, recorded connections, ended sleeps and stops change |
| `Reconnect.StaleStepHarmless` | app/adapters/base.py:116-160 | a step of a superseded loop begins no connect, does not disable and does not stop the adapter |
| `Reconnect.StaleNeverConnects` | app/adapters/base.py:112-116 | in every run a superseded loop never begins another connect |
| `Reconnect.DisablerIsNewest` | app/adapters/base.py:147-160 | only the newest loop of a running adapter disables it, one failure in a row after the allowed number, and only if that is at most 1024 |
| `Reconnect.StoppedStays` | app/adapters/base.py:116 | a stopped adapter begins no connect until a loop begins |
| `Reconnect.StopHoldsIff` | app/adapters/base.py:112-116 | after a stop no connect begins without another start exactly when none was scheduled |
| `Reconnect.StaleEndInvisibleIff` | app/adapters/base.py:123-144 | the end of a superseded loop leaves other loops alone, and the shared state exactly when no connection time was recorded and, if it failed, the adapter was disconnected already |
| `Reconnect.StaleEndResetsBackoff` | app/adapters/base.py:123-144 | a reachable state in which a superseded loop makes the newest one lose its connection time and start its backoff again |
| `Reconnect.CountStep` | app/adapters/base.py:128-166 | one event of whatever loop: only a failure of the newest loop raises its count; the one after the last it survives ends it, and stops and disables the adapter only if the allowed number is at most 1024 |
| `Reconnect.StopsAfterMost` | app/adapters/base.py:117-166 | over any interleaving with other loops, and with connections that break within a minute, the newest loop survives the allowed failures, or 1024 if these are unlimited or more, and exactly the next one ends it; the adapter is stopped then exactly in the first case |
| `Reconnect.DiesIff` | app/adapters/base.py:161-164 | the newest loop ends without stopping the adapter exactly at the 1025th failure in a row, when it is not the one that disables |
| `Reconnect.DeadStays` | app/adapters/base.py:112-116 | once the newest loop has ended nothing connects until a loop begins, although the adapter keeps running unless stopped |
| `Reconnect.UnlimitedGivesUp` | app/adapters/base.py:161-164 | a reachable outage of 1025 failures after which the adapter runs, counts as disconnected and never connects again without a start |
| `Reconnect.SleepBounds` | app/adapters/base.py:161-166 | the sleep is between 0.8 and 1.2 times the base delay, floored at 0.1 |
| `Reconnect.DelaysGrow` | app/adapters/base.py:161-164 | the base delays, of which there are 1024, never shrink and stay within the cap |
| `Reconnect.DoubledIsPower` | app/adapters/base.py:161-164 | the k-th delay before the cap is the interval times a power of two |
| `Reconnect.TotalDelayIs` | app/adapters/base.py:161-164 | the delays of m failures, 1024 at most, add up to the interval times (2^m - 1) below the cap, and to at most m caps |
| `TtlCache.Cache.Get` | app/core/cache.py:18-28 | a live entry is returned and becomes the newest, an expired one is dropped |
| `TtlCache.Cache.Set` | app/core/cache.py:30-35 | the entry becomes the newest and the store is trimmed |
| `TtlCache.Cache.Trim` | app/core/cache.py:45-51 | first the oldest go until the store fits, then the expired |
| `TtlCache.GetSays` | app/core/cache.py:18-28 | a live entry is returned and moves behind all others, an expired one is dropped, the others stay |
| `TtlCache.SetSays` | app/core/cache.py:30-51 | of the entries with the new one behind them the newest stay, and whatever has expired is gone |
| `TtlCache.StepKeeps` | app/core/cache.py:18-51 | every operation keeps the relation to the unbounded map |
| `TtlCache.NewestKeeps` | app/core/cache.py:47-48 | a key dropped for room has at least as many keys behind it as the cache holds |
| `TtlCache.CacheIsTheMap` | app/core/cache.py:18-51 | after any run: the size bound holds, a hit is the last value set and live, and a live key is missed only if at least the cache size of other keys were set or hit since its own last use |
| `SelfHealing.Registry.Execute` | app/runtime.py:65-137 | one execution of a task or workflow: nothing or a skipped run when disabled, else a run and perhaps a disable |
| `SelfHealing.Registry.CountStreak` | app/services/workflow.py:228-232 | the counting loop counts the failed runs at the end, up to the limit |
| `SelfHealing.Registry.AutoReenable` | app/runtime.py:207-305 | one round enables exactly the items whose cooldown is over, closes their last cycle and counts them |
| `SelfHealing.PatrolledSays` | app/runtime.py:207-305 | a round enables an item exactly when its stamp is at least the threshold old, takes the stamp away and closes an open last cycle |
| `SelfHealing.ExecutedSays` | app/services/workflow.py:150-243 | what one execution logs, and that exactly a tripped breaker disables, stamps and logs an open cycle, of which the newest nine are kept |
| `SelfHealing.DisablesIff` | app/services/workflow.py:215-243 | a run disables exactly when it failed and so did the configured number of newest runs with it |
| `SelfHealing.StepKeeps` | app/runtime.py:102-137 | at most nine cycles, all closed while enabled, only the stamped last one open while disabled, each at least the cooldown long and in order |
| `SelfHealing.RunKeeps` | app/runtime.py:102-305 | so over any run of executions and rounds |
| `SelfHealing.NewItemKeeps` | app/runtime.py:102-305 | and so from a new item on |
| `SelfHealing.DisablesSpaced` | app/runtime.py:217-252 | automatic disables of one item are at least the cooldown apart |
| `SelfHealing.RelapsesAtOnceIff` | app/services/workflow.py:155-162 | after re-enabling, the first failure disables again exactly for a task or a workflow that was not asked to run in between |

## Left out

- ComputeOrder: the order among the dependencies of one plugin is fixed by the code (alphabetical) and proved only through `SortNames` and the rule for any two plugins, not as a closed formula.
- CommandTable.CommandRegistry.CurrentClaims: which of two commands with one name wins depends on priorities; the model leaves it open, so what follows holds either way.
- CommandTable.CommandRegistry.UnregisterPlugin: which aliases of an overwritten name go depends on the iteration order of a set and is left open.
- PluginLoading.LoadEnabled: plugins have non-empty names; the commands and hooks a plugin registers in its own setup, conflict logs, contexts and the reading of manifests are not modelled. Tasks and listeners appear only as present, absent or raising.
- RateLimiter.SlidingWindowRateLimiter.Trim: which of two keys with equal first stamps is evicted is left open.
- RateHistory.SlidingWindowIsExact: keys evicted for lack of room start again, by design, and are excluded.
- CommandGate.CommandDispatcher.Handle: parsing of the command line, replies, events, audit and metrics, scope policy and permissions appear as the yes or no of their gate.
- ParamBinding.BindParams: conversion to numbers and truth values and the check of choices are a parameter, so the statements hold for any of them.
- RateSpec.ParseRateLimit: digits outside ASCII in the count are not modelled.
- AccountViews.BuildAccount, Accounting.BuildCommissionData: the order text and the printed order id on a line, and the messages built from the data, are not modelled. Completion times are numbers, so one that is not a date counts as missing.
- Cooldowns.CooldownTable.Evict: which of two keys with equal stamps is dropped is left open.
- Money is exact and finite: decimal and floating-point rounding of prices and fees is not modelled, nor are infinite prices, which the handlers accept and which make the difference not a number.
- OrderLedger.OrderStore.CreateOrder: highlights, printed order ids and the times of a cancelled take or a restore are not modelled; a concurrent insert between choosing a number and committing it is not either.
- Handlers of the ledger are one step each; interleaving between their read and their write is not modelled. Remarks, highlights and exports are not part of this model.
- SandboxRpc: what a plugin prints to the same pipe is noise on lines of its own. A printed line shaped like a response, which would complete a request, and a print without a newline, which glues itself to the next line and loses it, are not modelled.
- The start, shutdown and closing of the sandbox process and the checks of its service policy; a closed bridge that refuses requests.
- PlainValues.MessageRoundTrip: objects whose attributes raise while they are read, and a number in the place of the segment list.
- Reconnect: the connect itself, receive loops and heartbeats; `status` values set by particular adapters other than on connect and stop.
- TtlCache.Cache.Trim: a negative size, for which the cache raises on an empty store; locking.
- SelfHealing: enabling and disabling by hand, which leaves the open cycle as it is; runs of one workflow that overlap; scheduler jobs and events.
- Fuzzy suggestions, the prefix parser and sub-commands, regex rules, sessions, i18n, routers, adapters for other protocols, AI providers, zip install and backups: plumbing around unseen libraries.
