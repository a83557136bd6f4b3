# Single-room chat relay: command processor and presence registry

This project models the core of a Flask-SocketIO chat server (`app.py`) in
Dafny and proves properties of that model. The server has one room. Clients
join under a nickname and then broadcast messages. A message that starts with
`@` may be a command: `@奶小胖` asks the assistant stub for a reply, `@电影`
turns a target into an embedded player, and `@name` mentions a user who is
online.

- `Text.dfy` (module `Text`): the parts of Python's `str` that the command
  processor uses. These are `lower()` for ASCII letters, `strip()` over the
  characters Python counts as whitespace, and `split(' ', 1)`. Each one is characterised by its contract.
- `Commands.dfy` (module `Commands`): `process_command` as the pure function
  `ProcessCommand`. It takes the message, the sender and the current keys of
  `online_users`, and returns a `Response` of message text and `Kind`. Each
  branch of the fixed decision order has a lemma that states its output in
  terms of the shape of the message: the command token `cmd`, then either
  nothing or one space and `content`. The split round-trip in `Text` connects
  that shape to the code's `split`.
- `Registry.dfy` (module `Registry`): the dict `online_users`. It is modelled
  as its `(nickname, sid)` entries in insertion order, because the order of
  `list(online_users.keys())` reaches clients. Assignment (`Put`), deletion
  (`Remove`) and the disconnect scan (`FirstWithSid`) are functions over
  that sequence. Lemmas show they keep the keys distinct and keep the key
  order, and that every other key keeps its value.
- `Session.dfy` (module `Session`): the handlers. They are the methods of
  class `ChatServer`, whose field `onlineUsers` the methods reassign. Each
  handler returns the events it emits, in order. An event has a name, a
  payload and a recipient. The recipient is the caller, the room, or the
  room except one session id.

Some behaviour a reader might expect of a chat server is not what the code
does, and the model follows the code:

- One might expect a join under a taken nickname to fail. The code overwrites
  the entry and keeps its position (app.py:67), so `Join` does the same.
- One might expect `@Bob hey` with Bob online to be a mention. The code
  lower-cases the whole token before the lookup (app.py:107, 134), so the
  token becomes `@bob` and does not match `Bob`. Only nicknames that are
  already lower-case can be mentioned (`MixedCaseNicknamesAreNeverMentioned`,
  `CapitalisedMentionExample`).
- One might expect a session id to map to at most one nickname. The code
  does not enforce this: one connection can join under two nicknames.
  `handle_disconnect` then removes only the first of them
  (`SharedSidSurvivesRemoval`).
- `handle_leave` deletes by nickname, whichever connection asks
  (app.py:152-153). `Leave` takes the caller's sid, and its contract does
  not depend on it.

## Model

| member | source | states |
|---|---|---|
| `Text.Lower` | app.py:107 | Same length. The result has no ASCII upper-case letter. Every other character is kept, and each upper-case letter becomes its lower-case counterpart. |
| `Text.LowerFixesExactlyLowerCase` | app.py:107 | Lower-casing leaves a string unchanged if and only if it has no upper-case letter. This is why the Chinese triggers compare unchanged. |
| `Text.Strip` | app.py:119 | The result is the text with a blank prefix and a blank suffix cut off (`s[a..b]`, with `s[..a]` and `s[b..]` all whitespace). It is empty if and only if the text is all whitespace, and otherwise starts and ends with a non-space. Text without whitespace at either end is returned whole. Whitespace is Python's `str.isspace` set, U+3000 and U+00A0 included. |
| `Text.SplitOnce` | app.py:106 | Gives one or two parts. The first part has no separator. With one part it is the whole text; with two, text == first + sep + second. |
| `Text.SplitOnceAtFirst` | app.py:106 | The split is unique: `head + sep + tail` with no separator in `head` splits into exactly `[head, tail]`. |
| `Text.SplitOnceWithoutSeparator` | app.py:106-108 | Text without a space is one part, so the content is `''`. |
| `Commands.ProcessCommand` | app.py:103-145 | Only a message that starts with `@` can give anything but `normal`. A `normal` result echoes the message. `ai_response` carries the greeting to the sender, and `system` the missing-URL notice. `movie_link` carries the embed of a non-empty target. `mention` starts with `'@' + name + ' '` for a lower-case name that is online. The exact output of each branch is stated by the branch lemmas below. |
| `Commands.EveryCommandHasAShape` | app.py:104-108 | Every message that starts with `@` has a command shape: a token without spaces, then nothing or one space and the content. So the branch lemmas between them cover every command. |
| `Commands.CommandShapeOfSplit` | app.py:105-108 | For a message of that shape, the command token is `cmd` and the content is everything after the first space, untrimmed, or `''` when there is no space. |
| `Commands.PlainTextIsNormal` | app.py:142-145 | A message that does not start with `@` (the empty message included) comes back unchanged as `normal`. |
| `Commands.AiTriggerAnswers` | app.py:111-115 | A token that lower-cases to `@奶小胖` gives `ai_response` with the greeting that embeds the sender. This holds whatever the content is and whoever is online, so the trigger shadows a user of that name. |
| `Commands.MovieTriggerEmbedsTarget` | app.py:117-127 | `@电影` with content that is not all whitespace gives `movie_link`. Its iframe plays the resolver URL followed by the stripped content, and this holds whoever is online. |
| `Commands.MovieTriggerNeedsTarget` | app.py:128-132 | `@电影` with empty or all-whitespace content gives `system` with the fixed missing-URL notice. |
| `Commands.MentionOfOnlineUser` | app.py:134-139 | For any other token whose lower-cased name after `@` is online, the result is `mention` with exactly `'@' + name + ' ' + content`. |
| `Commands.UnknownCommandIsNormal` | app.py:134-145 | For any other token whose name is not online, the message comes back unchanged as `normal`. |
| `Commands.MixedCaseNicknamesAreNeverMentioned` | app.py:134-135 | When every online nickname has an upper-case letter, no message is a mention. |
| `Commands.MovieEmbedDeterminesTarget` | app.py:121-123 | Different targets give different embeds: the target can be read back from the iframe's `src`. |
| `Commands.CapitalisedMentionExample` | app.py:103-145 | `@Bob hey` with `Bob` online comes back as `normal` text, because the token is lower-cased to `@bob`. |
| `Commands.AiExample` | app.py:111-115 | `@奶小胖 hi` from Alice gets the assistant's greeting to Alice. |
| `Commands.MovieWithoutTargetExample` | app.py:128-132 | `@电影 ` (the target is only a space) draws the missing-URL notice. |
| `Commands.MovieWithTargetExample` | app.py:119-127 | `@电影 abc123` embeds `abc123`. |
| `Commands.IdeographicSpaceExample` | app.py:119-132 | `@电影` followed by a space and an ideographic space (U+3000) has no target once stripped, and draws the missing-URL notice. |
| `Registry.Keys` | app.py:73 | `list(online_users.keys())`: one nickname per entry, in insertion order. When the entries are a dict's, no nickname appears twice. |
| `Registry.Lookup` | app.py:67 | The key-to-sid mapping that assignment writes. A nickname has a sid if and only if it is a key, and then its entry holds that sid. |
| `Registry.Put` | app.py:67 | Assignment grows the registry by one entry only for a new nickname. The new entry is present, and every entry under another nickname stays in its place. Its effect on the key order and on lookups is stated by `PutKeys` and `PutLookup`. |
| `Registry.RemoveAt` | app.py:54 | Deleting position k leaves one entry fewer: the entries before k stay, and those after k move down by one. |
| `Registry.Remove` | app.py:153 | `del` by nickname leaves one entry fewer when the nickname is a key, and leaves the registry as it is otherwise. It never adds an entry. Its effect on the key order is stated by `KeysRemove`, and on lookups by `RemoveLookup`. |
| `Registry.IndexOf` | app.py:153 | The position of a key among the dict's entries, the entry `del` removes. The result is None if and only if the name is not a key. Otherwise it is the first position that holds the name. |
| `Registry.FirstWithSid` | app.py:51-52 | The iteration order of the disconnect scan: the result is the first position, in insertion order, whose sid matches, or None when no entry matches. |
| `Registry.PutKeys` | app.py:67 | Assignment keeps the key order. It appends the nickname only when the nickname is new. |
| `Registry.PutKeepsDistinct` | app.py:67 | Assignment keeps the keys distinct. |
| `Registry.PutLookup` | app.py:67 | After assignment, the nickname maps to the new sid. Every other key keeps its value. |
| `Registry.KeysRemoveAt` | app.py:54 | Deleting the entry at position k deletes exactly the k-th key. The other keys keep their order. |
| `Registry.RemoveAtKeys` | app.py:54 | Deleting one entry keeps the keys distinct and removes its nickname. Every other key's membership is unchanged. |
| `Registry.KeysRemove` | app.py:153-155 | `del` cuts the key out of the key order at its position, and the other keys keep their order, which is the order the `user_left` list sends. |
| `Registry.RemoveLookup` | app.py:153 | `del` by nickname removes that key only. Every other key keeps its value, and the keys stay distinct. |
| `Registry.RemoveIsIdempotent` | app.py:152-153 | Deleting a nickname twice is the same as deleting it once. |
| `Registry.PutThenRemove` | app.py:147-156 | Joining under a new nickname and then leaving gives back the registry as it was before. |
| `Registry.RemoveFirstWithSidIsRemove` | app.py:51-56 | Removing the first entry with the disconnecting sid is the same as deleting that entry's nickname. So disconnect and leave remove the same entry. |
| `Registry.SharedSidSurvivesRemoval` | app.py:51-59 | With two nicknames under one sid, the disconnect scan removes only the first, and the second still matches the sid. |
| `Session.ChatServer.constructor` | app.py:11 | The server starts with nobody online. |
| `Session.ChatServer.CheckNickname` | app.py:37-41 | Returns true if and only if no online user has the nickname. Nothing is changed (the method has no `modifies`). |
| `Session.ChatServer.Join` | app.py:61-78 | Maps the nickname to the caller's sid, overwriting in place. Other keys and their values are unchanged. The caller gets `join_success` and the room except the caller gets `user_joined`. Both carry the key list, and it contains the nickname. |
| `Session.ChatServer.Leave` | app.py:147-156 | A present nickname is removed and nothing else is: the key list is the old one with that nickname cut out at its position, the other keys in their order. The room then gets one `user_left` with that list. An absent nickname changes nothing and emits nothing. |
| `Session.ChatServer.Disconnect` | app.py:47-59 | Removes at most one entry: the first in insertion order with the disconnecting sid. It then emits one `user_left` whose list no longer has that nickname, the same event `leave` would emit. When no entry matches, nothing changes and nothing is emitted. |
| `Session.ChatServer.HandleMessage` | app.py:80-101 | Always emits the raw message to the room as `normal`, first. A second room event follows if and only if the processed type is not `normal`. That event carries the processed message and type, signed `系统` for `ai_response` and by the sender otherwise. |

## Left out

- Page routes, template rendering, `get_servers` and `load_config` (app.py:15-35): HTTP and file I/O with no logic.
- `handle_connect`, `print` logging, `socketio.run` and the actual delivery done by `emit`. The handlers return the events they emit as values instead.
- Socket.IO room bookkeeping (`join_room`, `leave_room`): this is library state separate from `online_users`. The recipients of the events stand for it.
- Concurrency: the handlers take no lock, and each one is modelled as one atomic step.
- Malformed payloads: a missing `nickname` or `message` field raises `KeyError` in the source. The model takes the fields as given. In `check_nickname`, a missing query argument (`None`) is not modelled either.
- Text.Lower: maps only ASCII letters, while Python's `lower()` also maps letters such as `Ä`. The two Chinese triggers are unaffected. A command token holding such a letter is not lower-cased here, so `@Ärger hi` with `ärger` online is `normal` in the model but a mention in Python.
- Session ids are modelled as strings, and a caller's sid is passed in as a parameter instead of being read from the request context.
