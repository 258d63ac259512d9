# Chat client: room directory, identity and link rendering

A model of the client-side core of an Angular chat application. Users join
named rooms and pick a display handle and a colour; messages are exchanged
through a remote document store. The part modelled here is what the two page
components keep in the browser's local storage, plus the pure message
formatter:

- **Room directory** — the sidebar's list of joined rooms under the `rooms`
  key: `saveRoom` appends an id if it is absent and at most five are kept;
  `deleteRoom` filters an id out after the user confirms.
- **Identity** — the `userId`, `handle` and `color` keys. The room page
  reuses or generates the user id and takes a stored handle, or else a
  prompted one (the handle lock). It adopts a stored colour. The landing
  page's `savePrefs` writes the handle only while none is stored and always
  writes the colour. A stored `''` counts as absent, as JavaScript
  truthiness has it.
- **Input guards** — sending a message and joining a room do nothing while
  the relevant fields are blank after trimming.
- **Linkify** — the pipe that turns `http://…`, `https://…` and `www.…`
  runs in a message into anchors.

Layout: `options.dfy` (Option), `text.dfy` (JavaScript whitespace and
`trim`), `linkify.dfy`, `directory.dfy`, `identity.dfy` (pure functions over
the preference keys), `storage.dfy` (the shared local storage object),
`room.dfy` (`RoomComponent`), `landing.dfy` (`LandingComponent`). The two
components are classes whose methods update their fields and the shared
`LocalStorage` object. Each method's postcondition ties the new state to the
pure functions of `Directory` and `Identity`, and the properties (no
duplicates, the cap, idempotence, the handle lock, stability of identity
across visits) are proved as lemmas about those functions. The linkifier is
a scan into tokens (copied characters and links) and a renderer. The scan is
proved to give back its input (`Strip(Tokens(s)) == s`). It is also proved
to be the only tokenization that scans leftmost, greedy and
non-overlapping, the way the global regular expression does.

Inputs the browser or the network would supply are method parameters: the
route's room id, `crypto.randomUUID()` (`freshId`), the `prompt` answer
(`None` for a cancelled prompt), the `confirm` answer, the random base-36
room id, whether the remote message listing of `deleteRoom` succeeded
(`fetched`), and whether the remote append of `sendMessage` succeeded
(`accepted`). Alerts and the submissions handed to the chat service are
recorded in ghost logs.

## Model

| member | source | states |
|---|---|---|
| `Options.Option.GetOr` | assignment-15-Hecatae1/src/app/pages/room/room.ts:131 | `??`: the value when present, the default when absent |
| `Text.Trim` | assignment-15-Hecatae1/src/app/pages/landing/landing.ts:147 | `trim()` returns a string that neither starts nor ends with whitespace |
| `Text.TrimIsInfix` | assignment-15-Hecatae1/src/app/pages/landing/landing.ts:147 | the trimmed string is the infix of the input at the trim offset, and everything dropped before and after it is whitespace |
| `Text.TrimEmptyIffBlank` | assignment-15-Hecatae1/src/app/pages/room/room.ts:232 | `!s.trim()` holds exactly when every character of `s` is whitespace |
| `Linkify.RunLength` | assignment-15-Hecatae1/src/app/linkify-pipe.ts:13 | the greedy `[^\s]+` stops at the first whitespace or at the end |
| `Linkify.MatchIsRun` | assignment-15-Hecatae1/src/app/linkify-pipe.ts:13 | where the expression matches, prefix plus maximal run is itself a match, longer than the prefix |
| `Linkify.Tokens` | assignment-15-Hecatae1/src/app/linkify-pipe.ts:13-14 | round trip: the scan stripped of its anchors gives back the input; and the scan is leftmost, greedy and non-overlapping (`ValidScan`) |
| `Linkify.ScanIsUnique` | assignment-15-Hecatae1/src/app/linkify-pipe.ts:13-14 | any leftmost, greedy, non-overlapping scan of a text equals `Tokens` of that text, so `Tokens` is the regular expression's scan |
| `Linkify.PrependChar` | assignment-15-Hecatae1/src/app/linkify-pipe.ts:14 | a position where no match starts is copied verbatim and the scan stays valid |
| `Linkify.PrependLink` | assignment-15-Hecatae1/src/app/linkify-pipe.ts:14 | a maximal match followed by a valid scan is a valid scan |
| `Linkify.LinkIsRun` | assignment-15-Hecatae1/src/app/linkify-pipe.ts:13 | a match followed by whitespace or the end is exactly the match found at the start of the combined text |
| `Linkify.Href` | assignment-15-Hecatae1/src/app/linkify-pipe.ts:15 | every href starts with `http` and ends with the match; it equals the match exactly when the match starts with `http` |
| `Linkify.Anchor` | assignment-15-Hecatae1/src/app/linkify-pipe.ts:16 | the opening tag is `<a href="`, the href, the closing quote, ` target="_blank" rel="noopener noreferrer"` (the link opens in a new tab) and `>`; the visible text that follows that `>` up to `</a>` is exactly the match |
| `Linkify.Transform` | assignment-15-Hecatae1/src/app/linkify-pipe.ts:11-19 | `transform('')` is `''` |
| `Linkify.NoMatchUnchanged` | assignment-15-Hecatae1/src/app/linkify-pipe.ts:13-14 | text where no prefix is followed by a non-whitespace character comes back unchanged, `<` included (no escaping) |
| `Linkify.LinksBecomeAnchors` | assignment-15-Hecatae1/src/app/linkify-pipe.ts:15-16 | every link of a valid scan starts with one of the three prefixes, its href starts with `http`, and a `www.` link gets `https://` prepended |
| `Directory.Saved` | assignment-15-Hecatae1/src/app/pages/room/room.ts:205-213 | saving keeps the old entries in order as a prefix and adds at most the id, at the end; an already stored id or a full list (5) leaves the list unchanged; afterwards the id is listed iff it was or there was room |
| `Directory.SaveKeepsNoDuplicates` | assignment-15-Hecatae1/src/app/pages/room/room.ts:206 | saving never introduces a duplicate |
| `Directory.SaveKeepsCap` | assignment-15-Hecatae1/src/app/pages/room/room.ts:207-210 | a list of at most 5 stays at most 5 |
| `Directory.SaveIdempotent` | assignment-15-Hecatae1/src/app/pages/room/room.ts:133-176 | saving the same id twice (as `ngOnInit` does) is saving it once |
| `Directory.Removed` | assignment-15-Hecatae1/src/app/pages/room/room.ts:262 | the filter drops every occurrence of the id and keeps every other entry with its multiplicity |
| `Directory.RemovedDistributes` | assignment-15-Hecatae1/src/app/pages/room/room.ts:262 | filtering works piecewise over concatenation, so the kept entries keep their relative order |
| `Directory.RemovedAbsent` | assignment-15-Hecatae1/src/app/pages/room/room.ts:262 | deleting an id that is not listed changes nothing |
| `Directory.RemovedIdempotent` | assignment-15-Hecatae1/src/app/pages/room/room.ts:262-264 | a second delete of the same id is a no-op on the list |
| `Directory.RemovedKeepsNoDuplicates` | assignment-15-Hecatae1/src/app/pages/landing/landing.ts:231 | deleting keeps the list free of duplicates |
| `Directory.SaveThenRemove` | assignment-15-Hecatae1/src/app/pages/landing/landing.ts:199-233 | saving a new id and then deleting it restores the list |
| `Identity.Get` | assignment-15-Hecatae1/src/app/pages/room/room.ts:139-141 | `getItem` gives the stored value when the key is present, nothing otherwise |
| `Identity.Adopted` | assignment-15-Hecatae1/src/app/pages/landing/landing.ts:120-126 | a stored value is adopted exactly when it is present and non-empty |
| `Identity.ResolvedUserId` | assignment-15-Hecatae1/src/app/pages/room/room.ts:143-150 | the stored user id when there is one, otherwise the fresh id |
| `Identity.PromptedHandle` | assignment-15-Hecatae1/src/app/pages/room/room.ts:158-165 | a prompt answer yields a handle exactly when it is not cancelled and not blank, and then it is the trimmed, non-empty answer |
| `Identity.ResolvedHandle` | assignment-15-Hecatae1/src/app/pages/room/room.ts:153-166 | the stored handle when there is one, else what the prompt answer yields; a resolved handle is never empty |
| `Identity.EnterPrefs` | assignment-15-Hecatae1/src/app/pages/room/room.ts:138-172 | entry leaves a stored user id as it is and otherwise stores the fresh one; it stores the handle only when none was stored and one was resolved; no other key changes |
| `Identity.EntryIsStable` | assignment-15-Hecatae1/src/app/pages/room/room.ts:141-172 | after an entry that resolved a handle, any later entry writes nothing and resolves the same user id, handle and colour |
| `Identity.SavedPrefs` | assignment-15-Hecatae1/src/app/pages/landing/landing.ts:144-156 | a stored non-empty handle is kept, otherwise the trimmed field is stored; the colour is always stored; no other key changes |
| `Identity.HandleLocks` | assignment-15-Hecatae1/src/app/pages/landing/landing.ts:146-151 | after a `savePrefs` with a non-blank handle, a second `savePrefs` with any handle keeps the first, trimmed, and stores the second colour |
| `Identity.BlankHandleDoesNotLock` | assignment-15-Hecatae1/src/app/pages/landing/landing.ts:176-179 | a blank handle is stored as `''`, and the next `savePrefs` overwrites it |
| `Identity.PromptedHandleLocksPrefs` | assignment-15-Hecatae1/src/app/pages/landing/landing.ts:146-151 | a handle chosen at the room page's prompt is kept by the landing page's `savePrefs` |
| `Storage.LocalStorage.constructor` | assignment-15-Hecatae1/src/app/pages/room/room.ts:195 | empty storage: no keys, and the rooms list reads as `[]` |
| `Room.RoomComponent.constructor` | assignment-15-Hecatae1/src/app/pages/room/room.ts:103-119 | the fields' initial values (`'#000000'` colour, empty ids and handle) |
| `Room.RoomComponent.LoadRooms` | assignment-15-Hecatae1/src/app/pages/room/room.ts:193-197 | the sidebar equals the stored list |
| `Room.RoomComponent.SaveRoom` | assignment-15-Hecatae1/src/app/pages/room/room.ts:203-216 | the stored list becomes `Saved`; the sidebar is set to it only when the id was appended; the capacity alert is raised exactly on the full path |
| `Room.RoomComponent.NgOnInit` | assignment-15-Hecatae1/src/app/pages/room/room.ts:128-188 | the room is the route's id or `public`; it is saved (once in effect, alerting twice when full) and the sidebar equals storage; storage and identity fields follow `EnterPrefs` and the resolved id, handle and colour |
| `Room.RoomComponent.ResolveIdentity` | assignment-15-Hecatae1/src/app/pages/room/room.ts:138-173 | storage becomes `EnterPrefs`; `currentUser` and the `userName`/`color` fields take the resolved id, handle and colour, keeping their old values where nothing is resolved; the alert only when no handle results |
| `Room.RoomComponent.UseUserId` | assignment-15-Hecatae1/src/app/pages/room/room.ts:143-150 | a stored truthy id is used and never rewritten; otherwise the fresh id is written and used |
| `Room.RoomComponent.UseHandle` | assignment-15-Hecatae1/src/app/pages/room/room.ts:152-166 | a stored handle is used with no write; otherwise a non-blank answer is stored trimmed; a blank or cancelled answer writes nothing, leaves the handle fields and raises the alert |
| `Room.RoomComponent.UseColor` | assignment-15-Hecatae1/src/app/pages/room/room.ts:168-172 | a stored truthy colour replaces the current one, else the current one stays |
| `Room.RoomComponent.SendMessage` | assignment-15-Hecatae1/src/app/pages/room/room.ts:231-240 | a blank message submits nothing and stays; otherwise exactly one submission with the current identity and the untrimmed text, and the input is cleared once the submission succeeds |
| `Room.RoomComponent.DeleteRoom` | assignment-15-Hecatae1/src/app/pages/room/room.ts:247-265 | a declined confirm or a failed remote listing changes nothing; otherwise the sidebar becomes the old sidebar filtered of the id and storage is set to the same list |
| `Landing.LandingComponent.constructor` | assignment-15-Hecatae1/src/app/pages/landing/landing.ts:93-96 | empty handle, rooms and room id, colour `#3b82f6` |
| `Landing.LandingComponent.LoadRooms` | assignment-15-Hecatae1/src/app/pages/landing/landing.ts:133-137 | the sidebar equals the stored list |
| `Landing.LandingComponent.NgOnInit` | assignment-15-Hecatae1/src/app/pages/landing/landing.ts:113-128 | the sidebar is loaded; handle and colour are adopted only when stored non-empty, else the fields keep their values |
| `Landing.LandingComponent.SavePrefs` | assignment-15-Hecatae1/src/app/pages/landing/landing.ts:144-156 | storage becomes `SavedPrefs`; the handle field is reset to a stored non-empty handle and otherwise kept |
| `Landing.LandingComponent.SaveRoom` | assignment-15-Hecatae1/src/app/pages/landing/landing.ts:199-212 | same as the room page: stored list becomes `Saved`, sidebar updated only on append, alert on the full path |
| `Landing.LandingComponent.OnJoinPublic` | assignment-15-Hecatae1/src/app/pages/landing/landing.ts:164-169 | a blank handle field changes nothing; otherwise prefs are saved and `public` goes through `saveRoom`: stored list, sidebar and capacity alert as for `SaveRoom` |
| `Landing.LandingComponent.GenerateId` | assignment-15-Hecatae1/src/app/pages/landing/landing.ts:176-180 | the room field becomes the new id; prefs are saved with no blank check; the id goes through `saveRoom`: stored list, sidebar and capacity alert as for `SaveRoom` |
| `Landing.LandingComponent.OnJoinCustom` | assignment-15-Hecatae1/src/app/pages/landing/landing.ts:187-193 | a blank handle or room field changes nothing; otherwise prefs are saved and the untrimmed room field goes through `saveRoom`: stored list, sidebar and capacity alert as for `SaveRoom` |
| `Landing.LandingComponent.DeleteRoom` | assignment-15-Hecatae1/src/app/pages/landing/landing.ts:219-234 | a declined confirm or a failed remote listing changes nothing; otherwise the sidebar is filtered of the id and stored |

## Left out

- Remote store calls (`getDocs`, `deleteDoc`, `addDoc`, `collectionData`): remote I/O. The per-message deletes in `deleteRoom` run as an unawaited `forEach(async …)`, and they are not modelled. Only the outcome of the awaited listing is a parameter: if it fails, the local filter is never reached. A failed listing therefore leaves the sidebar and storage as they were.
- The live message subscription, `chat.setRoom`, message ordering and the room-switch protocol: `ChatService` has no `setRoom`, and its one collection is not per room. chat.service.ts and chat.ts are not part of this model.
- `Room.RoomComponent.NgOnInit`: both `chat.setRoom` calls (room.ts:132 and room.ts:187) are taken to exist and to return normally. Since `ChatService` has no such method, the code as written would not type-check, and if run it would throw before the first `saveRoom`; the model does not capture that failure or the alert sequence it would produce.
- `Room.RoomComponent.SendMessage`: it records the four arguments the page passes. The chat service's `submitNewMessage` takes three (userName, message, color), so in the source they arrive shifted; that call and the service's unused `safeColor` are not modelled.
- Ownership checks, deletion of a room metadata record and navigating away after deleting the current room: the code has none of them.
- `crypto.randomUUID()` and `Math.random().toString(36).substring(2, 8)`: randomness; the generated ids are parameters.
- `prompt`, `alert`, `confirm`: answers are parameters, alerts a ghost log. `copyLink` (clipboard) and `router.navigate` are left out.
- Router events and `paramMap` subscriptions beyond their first synchronous delivery, and `isPlatformBrowser` (the browser branch is assumed). Also templates and the application configuration and routing files.
- `JSON.parse`/`JSON.stringify` of the `rooms` key: the decoded list is stored directly, and a missing key reads as `[]`.
- `DomSanitizer.bypassSecurityTrustHtml`: a foreign call; `Transform` returns the plain string.
- Strings are sequences of Unicode scalar values rather than UTF-16 code units. This does not change the regular expression or `trim`: their prefixes are ASCII, and every whitespace character is a single BMP code unit.
- Concurrent edits of local storage from several tabs (last write wins) are not modelled; each method is one atomic step.
