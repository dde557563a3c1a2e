# ReplicanteBot registry and repost model

ReplicanteBot is a Telegram bot. It copies every message posted in one
origin group to a list of destination groups. Admins manage that list, the
origin group and the admin list itself with five chat commands. This project
models the logic under the Telegram and file I/O, and proves its properties
in Dafny:

- the registry: three module-level values. `GRUPO_ORIGEM_ID` is an int, and 0
  means "not configured". `GRUPOS_DESTINO` and `ADMIN_IDS` are lists of ints;
- the five admin commands that update the registry in place
  (`adicionar_grupo`, `remover_grupo`, `definir_grupo_principal`,
  `adicionar_admin`, `remover_admin`) and the `is_admin` check that guards them;
- the repost fan-out (`repostar_mensagem`): one copy per destination, and
  admin alerts for each failed copy;
- the parsing of comma-separated id lists from environment variables
  (`carregar_config`, environment fallback).

Modules:

- `Ids` (ids.dfy): `Option`, and `ParseInt`/`IntToString`, which model Python's
  `int()` and `str()` on ids.
- `Registry` (registry.dfy): a registry `Snapshot`, the `Reply` codes, and the
  meaning of each command as the pure function `Step`. `Step` runs the shared
  guards first and then `Apply`. The module also holds the lemmas about both.
- `Config` (config.dfy): `Split`, the empty-segment filter, `ParseIdList` and
  `LoadFromEnvironment`, with their lemmas.
- `Relay` (relay.dfy): `FanOut`, the sequence of Telegram calls that a repost
  makes, with its lemmas. A copy's outcome is an oracle `copy: nat -> CopyResult`
  indexed by attempt number.
- `Bot` (bot.dfy): class `ReplicanteBot`. Its fields `origin`, `destinations` and
  `admins` are the module-level values. Its command methods mutate them in place,
  and each is proved to agree with `Registry.Step`. A ghost field `saved` holds
  the configuration last written to config.json. `Repost` runs the source's two
  nested loops and is proved to produce exactly `Relay.FanOut`.

Some facts about the code that the model keeps:

- Admins and destinations are lists, and the admin list may hold duplicates
  when it is loaded that way; the commands themselves never add a duplicate.
- `remover_admin` checks membership first, and then refuses whenever the list
  has at most one entry.
- After a failed copy the repost handler alerts every admin, and the loop goes
  on with the next destination.
- A command changes the in-memory list before `salvar_config` runs, so a
  failed config write is not rolled back (see Left out).

## Model

| member | source | states |
|---|---|---|
| Ids.IntToString | ReplicanteBot.py:26-27 | every int has a non-empty, comma-free decimal spelling that `int()` reads back as that int |
| Ids.ParseInt | ReplicanteBot.py:25-27 | `int()` accepts only an optional leading sign followed by digits, so an accepted segment is non-empty and has no comma; only a minus sign gives a negative id |
| Ids.NatDigits | ReplicanteBot.py:26-27 | every natural number has a digit spelling whose value is that number |
| Config.Split | ReplicanteBot.py:26 | `split(",")` gives at least one segment; no segment contains a comma; joining the segments with commas gives back the input |
| Config.NonEmpty | ReplicanteBot.py:26 | the `if id` filter keeps exactly the non-empty segments and drops every empty one |
| Config.ParseAll | ReplicanteBot.py:26-27 | `int()` over the segments succeeds iff every segment parses; the ids then match the segments one for one, in order |
| Config.ParseIdList | ReplicanteBot.py:26-27 | the empty string gives the empty list; the parse succeeds iff every non-empty segment is an integer; it yields at most one id per segment |
| Config.NonEmptyParses | ReplicanteBot.py:26-27 | the kept segments all parse iff every non-empty segment parses: the `if id` filter drops exactly the segments that `int()` would reject for being empty |
| Config.LoadFromEnvironment | ReplicanteBot.py:23-28 | with nothing set, the origin is 0 and both lists are empty; loading succeeds iff the origin is unset or parses and both id lists parse; a loaded origin is 0 when unset and otherwise the parsed value, and each loaded list is exactly the parse of its variable, or of "" when unset |
| Config.SplitAtComma | ReplicanteBot.py:26 | splitting `s + "," + t` gives the segments of `s` followed by those of `t` |
| Config.SplitJoin | ReplicanteBot.py:26 | `split(",")` undoes a comma join of comma-free segments |
| Config.ParseIdListAtComma | ReplicanteBot.py:26-27 | the ids on the two sides of a comma are parsed independently and concatenated in order; if either side fails, the whole parse fails |
| Config.ParseIdListIgnoresEmptySegments | ReplicanteBot.py:26-27 | a leading, trailing or doubled comma changes nothing |
| Config.ParseIdListRoundTrip | ReplicanteBot.py:26-27 | any list of ids written with commas is read back exactly, in order |
| Registry.IndexOf | ReplicanteBot.py:153 | the position `list.remove` acts on: the first index that holds the id |
| Registry.RemoveFirst | ReplicanteBot.py:153 | for an `x` in the list, `list.remove(x)` deletes exactly the first occurrence of `x` and keeps the rest in order; for an absent `x` the model returns the list unchanged, a case the handlers never reach (see Left out) |
| Registry.RemoveFirstMultiset | ReplicanteBot.py:153 | removal takes out one copy of the id and nothing else; the length drops by one |
| Registry.RemoveFirstDistinct | ReplicanteBot.py:153 | on a duplicate-free list, removal keeps the list duplicate-free and drops the id completely; every other entry stays |
| Registry.RemoveFirstKeepsDuplicate | ReplicanteBot.py:244 | if an admin id occurs twice, `remover_admin` leaves that user an admin |
| Registry.RejectionsChangeNothing | ReplicanteBot.py:105-115 | a caller that is not an admin, a missing argument or a non-integer argument leaves the registry unchanged and commits nothing; a non-admin gets the permission refusal |
| Registry.IsAdmin | ReplicanteBot.py:43-44 | a user is an admin iff some entry of the admin list is that user; so with an empty admin list nobody is |
| Registry.Step | ReplicanteBot.py:101-250 | the registry changes only when a command commits; a command commits only for a caller in the admin list whose first argument parses, and acts on that id; no command empties a non-empty admin list or introduces a duplicate destination or admin |
| Registry.Apply | ReplicanteBot.py:117-246 | once the guards pass, a command touches only its own part of the registry (only `SetOrigin` changes the origin, only the destination commands the destinations, only the admin commands the admins), commits on the parsed id, and changes nothing when it refuses |
| Registry.AddDestinationSpec | ReplicanteBot.py:117-125 | a duplicate destination is refused with no change; otherwise the id is appended at the end; a duplicate-free list stays duplicate-free; the id is listed afterwards |
| Registry.RemoveDestinationSpec | ReplicanteBot.py:147-155 | an absent destination is refused with no change; otherwise its first occurrence is cut out, the rest keep their order and the length drops by one; on a duplicate-free list the id is then gone |
| Registry.SetOriginSpec | ReplicanteBot.py:177-181 | the origin is overwritten with the parsed id, unconditionally; both lists are untouched |
| Registry.AddAdminSpec | ReplicanteBot.py:203-211 | an existing admin is refused with no change; otherwise the id is appended; a duplicate-free admin list stays duplicate-free |
| Registry.RemoveAdminSpec | ReplicanteBot.py:233-246 | a non-admin is refused with no change; with at most one admin, removal is refused with no change; otherwise the first occurrence is cut out; a non-empty admin list never becomes empty |
| Registry.Run | ReplicanteBot.py:101-250 | over any sequence of commands, a registry that has an admin keeps one; with an empty admin list every command is refused and the registry never changes |
| Relay.Alerts | ReplicanteBot.py:292-297 | one failed copy alerts every admin exactly once, in admin-list order, naming the group and the error |
| Relay.AlertsSpec | ReplicanteBot.py:292-297 | the alerts copy nothing and number one per admin |
| Relay.Attempt | ReplicanteBot.py:281-299 | one destination's calls start with its copy; a failed copy is followed by one alert per admin in admin-list order, naming the group and the error, and a successful one by nothing |
| Relay.AttemptSpec | ReplicanteBot.py:281-299 | one destination gets exactly one copy; a failed copy adds one alert per admin, and a successful one adds none |
| Relay.FanOut | ReplicanteBot.py:280-299 | the number of calls is one per destination plus one per admin for every failed copy |
| Relay.FanOutCopiesEveryGroup | ReplicanteBot.py:280-290 | whatever the copies return, every destination gets exactly one copy attempt, in list order |
| Relay.FanOutNotifications | ReplicanteBot.py:289-299 | the number of alerts is the number of admins times the number of failed copies |
| Relay.FanOutPrefix | ReplicanteBot.py:280-299 | the calls for the first k destinations come first, then the k-th destination's copy and alerts; a failure never cuts the loop short |
| Relay.FanOutAllCopied | ReplicanteBot.py:280-288 | when every copy succeeds, the calls are one copy per destination and nothing else |
| Bot.ReplicanteBot.constructor | ReplicanteBot.py:36-40 | the bot starts with the loaded origin, destinations and admins; nothing has been saved yet |
| Bot.ReplicanteBot.Guard | ReplicanteBot.py:105-115 | the shared guards: no id unless the caller is an admin, an argument is given and it parses; the refusal is the first check that failed |
| Bot.ReplicanteBot.AddDestination | ReplicanteBot.py:101-129 | the new fields and the reply are those of `Step(AddDestination, …)`; the config is saved with the new state iff the command committed |
| Bot.ReplicanteBot.RemoveDestination | ReplicanteBot.py:131-159 | the new fields and the reply are those of `Step(RemoveDestination, …)`; the config is saved iff the command committed |
| Bot.ReplicanteBot.SetOrigin | ReplicanteBot.py:161-185 | the new fields and the reply are those of `Step(SetOrigin, …)`; the config is saved iff the command committed |
| Bot.ReplicanteBot.AddAdmin | ReplicanteBot.py:187-215 | the new fields and the reply are those of `Step(AddAdmin, …)`; the config is saved iff the command committed |
| Bot.ReplicanteBot.RemoveAdmin | ReplicanteBot.py:217-250 | the new fields and the reply are those of `Step(RemoveAdmin, …)`; the config is saved iff the command committed; a non-empty admin list stays non-empty |
| Bot.ReplicanteBot.Repost | ReplicanteBot.py:275-299 | a message from outside the origin group makes no call; a message from the origin makes exactly the calls of `FanOut` over the current destinations and admins |

## Left out

- Telegram I/O is left out: `reply_text`, `copy_message`, `send_message`, `async`/`await`, and the handler registration and polling in `main`. Replies are the abstract `Reply` codes, not texts. A copy's outcome is an oracle parameter. A notification's outcome is ignored, because the source swallows its exceptions.
- Concurrency is left out. The source's handlers can interleave at every `await`, so a command could change `GRUPOS_DESTINO` while a repost is iterating over it. The model runs each handler to completion before the next one starts.
- The `MessageHandler` filter at ReplicanteBot.py:323-326 is not modelled. It captures the origin id once at startup. Only the explicit origin check inside `repostar_mensagem` is modelled.
- The file branch of `carregar_config` and `salvar_config` are not modelled, because they are JSON file I/O. Persistence is the ghost field `saved`, which holds the state last written. A write is assumed to succeed. In the source the list is changed before `salvar_config` runs, so a failing write would leave memory ahead of the file. The model does not capture that case.
- `BOT_TOKEN` and the token check in `main` are not modelled. Environment variables are the `Environment` datatype, with `None` for unset.
- Registry.RemoveFirst: for an id that is not in the list it returns the list unchanged, where Python's `list.remove` raises ValueError. The handlers never call it that way, because they check membership first (ReplicanteBot.py:148 and :234).
- `ParseInt` accepts only an optional sign followed by ASCII decimal digits. Python's `int()` also accepts surrounding whitespace, underscores between digits and non-ASCII digits; the model rejects these.
- The message texts and logging are not modelled: `start`, `ajuda`, `listar_grupos` and `status`. In those handlers "configured" means an origin other than 0, and no proved property depends on that.
