# AirForShare client core, modelled in Dafny

AirForShare is a file-sharing web client. Users join rooms, chat, share files and
see who else is present. A public page lists files anyone can download. This
project models the client's deterministic logic as pure functions over immutable
data and proves properties of it. The modelled parts are:

- the socket service, split into two modules:
  - `Events`: the nine inbound event kinds, the handler registry with `on` and
    `off`, the notification policy, and the fan-out of an event to its handlers.
  - `Connection`: the single lazily created socket, the reconnect rule, the
    outbound emits, and `disconnect`.
- the room page (`RoomDetail`):
  - its state, and the five handlers it subscribes while mounted;
  - what each inbound event does to the page;
  - the join request it sends, and its two sends that do not touch its own state;
  - which of its three views it shows.
- the join form (`JoinRoomForm`): validation, and the request it hands on.
- the file table (`FileList`): the icon classifier, and the delete bookkeeping.
- the member list (`UserList`): the display order, and the "(You)" marker.
- the public file page (`PublicFiles`): fetch, upload and delete.
- the chat panel (`Chat`): the send guard, and how stream entries are drawn.
- the rooms page's join handler (`Rooms`): create-private, go-to-existing or
  error, plus the address it navigates to.

Two supporting modules give JavaScript's meaning to the library calls the code
relies on:

- `JsString`: `trim`'s white-space set, `length` in UTF-16 code units,
  `startsWith`, `includes`, and a case-insensitive regular-expression suffix match.
- `UriComponent`: `encodeURIComponent` as UTF-8 percent-encoding, together with
  the query-value decoding that reads it back.

`Entities` holds the shared records: users, file descriptions, stream entries and
join requests. It also holds JavaScript truthiness for optional strings.

Modelling choices:

- Handlers are opaque ids. Two handlers are the same exactly when their ids are
  equal, which stands for JavaScript's `===` on function objects.
- The transport is not modelled. Opening a socket, asking it to reconnect,
  emitting and closing are recorded as a list of actions.
- Whatever the program receives from outside is a parameter of the function
  that uses it:
  - server replies and the socket's id;
  - HTTP outcomes, as an explicit response datatype with an error case;
  - the socket `io()` would create.
- Delivering an event to a session runs the notification policy and then
  every subscribed handler in order. The page changes only when one of its own
  handlers is called.

## Model

| member | source | states |
|---|---|---|
| Events.KindsAreClosed | src/services/socket.js:8-18 | There are exactly nine kinds, each with its own wire name. Name and kind correspond one to one, and `AllKinds` lists each kind once. |
| Events.ParseInvertsName | src/services/socket.js:72-75 | A name outside the nine denotes no kind, so `on` and `off` ignore it. Any other name denotes the kind whose wire name it is. |
| Events.EmptyRegistry | src/services/socket.js:8-18 | At load time every one of the nine kinds has an empty handler list. |
| Events.On | src/services/socket.js:71-78 | For a known kind, the handler is appended at the end of that kind's list. Every other kind's list is unchanged. An unknown name changes nothing. |
| Events.Without | src/services/socket.js:87 | The filter removes every occurrence of the handler. Every other handler keeps its number of occurrences. A list without the handler comes back unchanged. |
| Events.WithoutAppend | src/services/socket.js:87 | The filter works piecewise over concatenation, so the remaining handlers keep their relative order. |
| Events.Off | src/services/socket.js:81-88 | For a known kind, every occurrence of the handler is filtered out of that kind's list. Other kinds are untouched. A name that is neither one of the nine nor a property inherited from `Object.prototype` changes nothing. |
| Events.OffUndoesOn | src/services/socket.js:71-88 | `off` after `on` of a handler not yet in that kind's list gives back the original registry. |
| Events.OffRemovesAllCopies | src/services/socket.js:87 | A handler subscribed twice is gone after one `off`. |
| Events.OnAllAppends | src/services/socket.js:71-78 | After a series of `on` calls, each kind's list is its old list followed by its new handlers, in call order. |
| Events.OffAllRemoves | src/services/socket.js:81-88 | After a series of `off` calls, each kind's list is its old list minus that kind's handlers among the pairs. |
| Events.OffAllUndoesOnAll | src/services/socket.js:71-88 | Unsubscribing exactly the subscribed pairs restores the registry, provided none of their handlers was subscribed before. |
| Events.Notify | src/services/socket.js:50-60 | Error toasts are shown exactly for `roomJoinError` and `inviteError`, carrying the server's message. A success toast is shown exactly for `roomInfo` ("Joined room: " + id). Info toasts name the joining user, the leaving user and the inviter. `message`, `newFile` and `p2pSignal` show nothing. |
| Events.FanOut | src/services/socket.js:63 | One call per subscribed handler, in list order, each with the same payload. |
| Events.Dispatch | src/services/socket.js:46-64 | The toast comes from the policy. Then come exactly the handlers of the event's kind, in subscription order, each receiving the event. |
| Events.CallsMatchSubscriptions | src/services/socket.js:63 | A handler is called once for every time it is subscribed to the event's kind. |
| Events.UnsubscribedIsNotCalled | src/services/socket.js:81-88 | After `off`, the removed handler is never called for that kind. Every other handler is called as often as before. |
| Events.UnknownNameIsHarmless | src/services/socket.js:72-75 | `on` with an unknown name has no effect on any later dispatch. |
| Connection.InitialClient | src/services/socket.js:4-18 | At load time there is no socket, no handler and no action. |
| Connection.InitSocket | src/services/socket.js:21-24 | An existing socket is returned with nothing changed. Otherwise the new socket is stored and opened. The registry is never touched. |
| Connection.InitSocketIdempotent | src/services/socket.js:22 | A second `initSocket` returns the first call's socket and changes nothing, whatever `io()` would create. |
| Connection.OnDisconnect | src/services/socket.js:30-37 | The closed socket loses its id, whatever the reason. A reconnect is requested exactly when the reason is "io server disconnect" and a socket exists. Any other reason records no action. |
| Connection.OnConnect | src/services/socket.js:26-28 | Once connected, the socket carries the id the server assigned. Nothing else changes. |
| Connection.Disconnect | src/services/socket.js:129-139 | With a socket: the listener runs with "io client disconnect" while the socket is still set, then the socket is closed and forgotten, and all nine lists become empty. No reconnect is requested. Without one: nothing changes and the handlers stay subscribed. |
| Connection.ClientDisconnectIsFinal | src/services/socket.js:129-139 | The listener run by the client's own disconnect requests no reconnect and does not change what `disconnect()` leaves. A second `disconnect()` does nothing. |
| Connection.Send | src/services/socket.js:100-117 | An emit is recorded exactly when a socket exists. The call fails when there is none. |
| Connection.JoinRoom | src/services/socket.js:91-97 | `joinRoom` creates the socket if needed, then emits the request. It never fails and never touches the registry. |
| Connection.GetSocketId | src/services/socket.js:120-126 | The id is read from the existing socket, or from the one just created. With a socket at hand nothing is created. |
| Connection.ConnectedIdIsReturned | src/services/socket.js:120-126 | After `connect`, `getSocketId` returns the id the server assigned and changes nothing. |
| Connection.SendSignal | src/services/socket.js:110-112 | Exactly one `p2pSignal` emit carrying `to`, `signal` and `from`, when a socket exists. The call fails without one. |
| Connection.InviteToRoom | src/services/socket.js:115-117 | Exactly one `inviteToRoom` emit carrying the room id and the target socket id, when a socket exists. The call fails without one. |
| Connection.DisconnectForgetsId | src/services/socket.js:30-37 | After any disconnect the id is undefined, until the next `connect` sets the new one. |
| Connection.SendMessage | src/services/socket.js:100-102 | Exactly one `sendMessage` emit carrying the room id and the text, when a socket exists. The call fails without one. |
| Connection.ShareFileInfo | src/services/socket.js:105-107 | Exactly one emit under the name `fileInfo` carrying the room id and the file, when a socket exists. The call fails without one. |
| RoomDetail.InitialPage | src/pages/RoomDetail.jsx:23-29 | A new page is loading, not joined, has no room, no stream and no users. Its username is the query's when that is non-empty, else "". |
| RoomDetail.SubscriptionsPerKind | src/pages/RoomDetail.jsx:43-47 | The page subscribes one handler to each of `roomInfo`, `userJoined`, `message`, `newFile` and `userLeft`. It subscribes none to the other four kinds, `roomJoinError` included. |
| RoomDetail.HandleJoinRoom | src/pages/RoomDetail.jsx:79-84 | The request carries only the room id and the username. |
| RoomDetail.JoinIgnoresPrivacy | src/pages/RoomDetail.jsx:79-84 | The join form's privacy flag has no effect on what is sent. |
| RoomDetail.Mount | src/pages/RoomDetail.jsx:32-47 | The socket is ensured. A join is emitted exactly when the query username is non-empty, for the page's room. The registry gains the page's five subscriptions. |
| RoomDetail.Unmount | src/pages/RoomDetail.jsx:50-55 | Cleanup only unsubscribes the page's five pairs. The socket stays open, nothing is emitted, and the page is unchanged. |
| RoomDetail.UnmountRestoresRegistry | src/pages/RoomDetail.jsx:43-55 | Cleanup removes exactly what mounting added. |
| RoomDetail.MountSubscribes | src/pages/RoomDetail.jsx:43-47 | After mounting, each of the page's handlers is subscribed exactly once to its own kind. |
| RoomDetail.FetchRoomDone | src/pages/RoomDetail.jsx:59-77 | A successful reply becomes the room. Any failure redirects to "/rooms". Loading ends either way, and nothing else changes. |
| RoomDetail.FetchEndsLoader | src/pages/RoomDetail.jsx:59-77 | After the fetch the loader is gone: a joined page shows the room, holding the fetched record on success. A failure leaves the redirect to "/rooms". |
| RoomDetail.MergeRoom | src/pages/RoomDetail.jsx:95-99 | Only `isPrivate` and `users` are overwritten; the other room fields are kept. |
| RoomDetail.React | src/pages/RoomDetail.jsx:86-120 | `roomInfo`: the page becomes joined, the user list is replaced, and the current user becomes the socket id plus the page's own username. `userJoined`/`userLeft`: the list is replaced wholesale, joined or not. `message`/`newFile`: the record is appended to the one stream. The other kinds change nothing. |
| RoomDetail.FanOutReacts | src/pages/RoomDetail.jsx:86-120 | Fanning out changes the page once per subscription of the page's own handler, and not otherwise. |
| RoomDetail.HandlerAsksGetSocketId | src/pages/RoomDetail.jsx:89 | The id the `roomInfo` handler records is what `getSocketId` returns, whatever fresh socket `io()` would create. With a live socket, asking changes nothing. |
| RoomDetail.Deliver | src/services/socket.js:46-64 | Delivering an event shows the policy's toast and leaves the client as it was. |
| RoomDetail.SubscribedPageReactsOnce | src/pages/RoomDetail.jsx:43-47 | On a mounted page, every event has exactly the effect of the page's own handler, applied once. |
| RoomDetail.UnsubscribedPageIgnores | src/pages/RoomDetail.jsx:50-55 | A page whose handler is not subscribed (after unmount, or after `disconnect()`) is unchanged by the event. |
| RoomDetail.JoinErrorOnlyNotifies | src/services/socket.js:50-51 | A join error only shows its message; the page, joined or not, stays as it was. |
| RoomDetail.StreamStep | src/pages/RoomDetail.jsx:112-120 | One `message` or `newFile` event appends its record, changes nothing else, and leaves the page subscribed. |
| RoomDetail.StreamKeepsArrivalOrder | src/pages/RoomDetail.jsx:112-120 | Over any sequence of stream events, the records land in arrival order, each once, after what was there. |
| RoomDetail.JoinedStaysJoined | src/pages/RoomDetail.jsx:86-120 | Once joined, the page stays joined whatever events arrive. |
| RoomDetail.HandleSendMessage | src/pages/RoomDetail.jsx:122-124 | Sending emits the text to the page's room and leaves the page's stream as it is. |
| RoomDetail.HandleUploadSuccess | src/pages/RoomDetail.jsx:126-129 | Sharing emits the file to the page's room and leaves the page as it is. |
| RoomDetail.ViewOf | src/pages/RoomDetail.jsx:132-159 | The join form shows exactly when not joined, whatever the loading flag. The loader shows exactly when joined and loading. The room shows otherwise. |
| RoomDetail.RoomInfoEndsJoinForm | src/pages/RoomDetail.jsx:132-136 | After the room info reaches a mounted page, the join form never shows again. |
| JoinRoomForm.NewForm | src/components/JoinRoomForm.jsx:5-8 | A new form has an empty name, no private room, and the room id it was opened with. |
| JoinRoomForm.Validate | src/components/JoinRoomForm.jsx:10-27 | The name has no error exactly when it is non-blank and within bounds; a blank name is "required". The room id has an error, "required", exactly when none is at hand and no private room is asked for. |
| JoinRoomForm.UsernameError | src/components/JoinRoomForm.jsx:13-19 | A blank name gives "required", whatever its length. Otherwise the untrimmed length decides "too short" (< 3) or "too long" (> 20). No error exactly when the name is non-blank and 3..20 long. |
| JoinRoomForm.RoomIdError | src/components/JoinRoomForm.jsx:21-23 | The room id is demanded exactly when there is no initial id, the field is empty and no private room is asked for. |
| JoinRoomForm.ValidIff | src/components/JoinRoomForm.jsx:10-27 | The form passes exactly when both field checks pass. The checks are independent. |
| JoinRoomForm.Submit | src/components/JoinRoomForm.jsx:29-39 | Something is handed on exactly when the form is valid: the name as typed, an empty room id as absent, and the privacy box as set. |
| JoinRoomForm.PaddingCounts | src/components/JoinRoomForm.jsx:13-15 | Blanks around a two-character name count towards the minimum length, although the trimmed name is too short. |
| JoinRoomForm.TwentyIsAccepted | src/components/JoinRoomForm.jsx:17-18 | A 20-character name passes, although the message reads "less than 20". |
| JoinRoomForm.BothErrorsAtOnce | src/components/JoinRoomForm.jsx:10-27 | An empty form opened without a room id reports both errors. |
| JoinRoomForm.InitialRoomIdSuffices | src/components/JoinRoomForm.jsx:21 | With an initial room id, the room id is never demanded and only the name decides. |
| JoinRoomForm.RoomPageJoinsItsRoom | src/pages/RoomDetail.jsx:141-144 | On the room page the hidden fields keep the page's room id. An accepted name joins that room. |
| FileList.FileIcon | src/components/FileList.jsx:11-21 | The first matching rule wins: image/, audio/, video/ prefixes, then "pdf" anywhere in the mimetype, then archive and code extensions, then generic. An absent or empty mimetype matches no mimetype rule. |
| FileList.MissingMimetypeUsesName | src/components/FileList.jsx:12-16 | Without a usable mimetype the icon depends on the name alone. |
| FileList.NameRulesIgnoreCase | src/components/FileList.jsx:16-17 | Upper-casing the name never changes the icon. |
| FileList.Extension | src/components/FileList.jsx:16-17 | The text after the last dot of a name; absent exactly when the name has no dot. |
| FileList.HasExtensionIff | src/components/FileList.jsx:16-17 | The end-anchored pattern `\.(…)$/i` matches exactly when the text after the last dot equals a listed extension up to case. |
| FileList.ExtensionNeedsDot | src/components/FileList.jsx:16-20 | Without a mimetype, every name without a dot, "zip" and "js" among them, gets the generic icon. |
| FileList.ExtensionIsAtTheEnd | src/components/FileList.jsx:16-20 | "notes.zip.txt" is not an archive. |
| FileList.BeginDelete | src/components/FileList.jsx:23-29 | A file without a truthy public id is refused with an error, and nothing else happens. Otherwise its id joins the deleting set and a request goes out for it. |
| FileList.FinishDelete | src/components/FileList.jsx:31-49 | The file is dropped, with a success toast, exactly on a reply with `success`. Otherwise "Delete failed: " comes with the reply's or the error's message. Either way the id leaves the set and the other entries stay. |
| FileList.DeleteDisabled | src/components/FileList.jsx:111 | With no deletion pending no button is disabled. For a file with a truthy public id, the button is disabled exactly while that id is pending. |
| FileList.DeleteRestoresSet | src/components/FileList.jsx:29-48 | While its request is out, the file's button is disabled. Afterwards the set is as before, on success and on failure. |
| UserList.SortUsers | src/components/UserList.jsx:4-10 | The sorted list is a new list holding the same users (a permutation of the input). |
| UserList.SortUsersOrder | src/components/UserList.jsx:5-9 | Every row of the current user precedes every other row, and the other rows are in non-decreasing name order. |
| UserList.SortByNameSorts | src/components/UserList.jsx:9 | The name sort yields a list sorted pairwise by name. |
| UserList.Rows | src/components/UserList.jsx:18-29 | One row per user, in sorted order. A row carries the marker exactly when its user's id is the current id. |
| UserList.CountAndMarkers | src/components/UserList.jsx:15-29 | The heading counts every user given. Each user's row is marked exactly when the id matches. |
| PublicFiles.InitialFilesPage | src/pages/PublicFiles.jsx:9-10 | The page starts with no files and loading. |
| PublicFiles.FetchFiles | src/pages/PublicFiles.jsx:17-34 | Success replaces the list wholesale. Failure keeps it and shows "Failed to load files: " with the reason. Loading is false afterwards in every case. |
| PublicFiles.Upload | src/pages/PublicFiles.jsx:36-39 | The new file comes first, followed by the old list unchanged. |
| PublicFiles.Delete | src/pages/PublicFiles.jsx:41-44 | No file with the deleted file's public id is left, the list does not grow, and loading is untouched. |
| PublicFiles.RemoveFile | src/pages/PublicFiles.jsx:41-44 | No kept file has the deleted public id. |
| PublicFiles.RemoveFileKeepsOthers | src/pages/PublicFiles.jsx:43 | Every file with another public id is kept as often as it was listed. |
| PublicFiles.RemoveFileAppend | src/pages/PublicFiles.jsx:43 | The kept files stay in their order. |
| PublicFiles.UploadThenDelete | src/pages/PublicFiles.jsx:36-44 | Uploading a file with a new id and then deleting it gives back the original page. |
| PublicFiles.DeleteTwice | src/pages/PublicFiles.jsx:41-44 | Deleting is idempotent. |
| PublicFiles.DeleteThroughTable | src/pages/PublicFiles.jsx:41-44 | The page drops a file only when the server confirmed the delete. No file with that id is left afterwards. |
| Chat.SubmitMessage | src/components/Chat.jsx:81-87 | Blank text is never sent and stays in the box. Other text is sent untrimmed, and the box is cleared. |
| Chat.SendDisabled | src/components/Chat.jsx:121 | The send button is disabled exactly when the text is all white space. |
| Chat.DisabledIffNothingSent | src/components/Chat.jsx:121 | The send button is disabled exactly when a submit would send nothing. |
| Chat.SendThroughPage | src/pages/RoomDetail.jsx:122-124 | Sent text reaches the room untrimmed, and the page's stream is untouched. |
| Chat.Classify | src/components/Chat.jsx:4-67 | An entry is a file notice exactly when it has file info, and a chat bubble otherwise. It is the user's own exactly when its sender's id is the current user's id, and never without a current user. |
| Chat.Render | src/components/Chat.jsx:99-105 | One bubble per stream entry, in stream order. |
| Chat.OwnEntriesAfterJoin | src/components/Chat.jsx:103 | After joining, an entry is the user's own exactly when its sender's id is the socket id. |
| Rooms.Decide | src/pages/Rooms.jsx:40-55 | Privacy wins over a room id. A truthy room id goes straight to the room. Neither is an error. |
| Rooms.HandleJoin | src/pages/Rooms.jsx:36-62 | A create request is made exactly for private requests. Exactly one of navigation or error toast happens. The address and the failure texts are as the source gives them. `isJoining` is true while the request is handled and false afterwards on every path. |
| Rooms.PrivateIgnoresRoomId | src/pages/Rooms.jsx:40-50 | A private request ignores any room id it carries. |
| Rooms.ExistingRoomIgnoresServer | src/pages/Rooms.jsx:50-52 | A non-private request never involves the server's answer. |
| Rooms.UrlCarriesUsername | src/pages/Rooms.jsx:46 | The username's part of the address is safe as a query value and reads back as the username exactly. |
| Rooms.QueryIsTheUsername | src/pages/Rooms.jsx:52 | For a room id without '?' or '#', the address's query starts at the '?' the handler writes, no fragment follows, and the whole query is `username=` and the encoded name. |
| Rooms.FormRulesOutMissingInfo | src/pages/Rooms.jsx:53-54 | A request from the rooms page's form never ends in "Missing required information". |
| UriComponent.EncodeIsQuerySafe | src/pages/Rooms.jsx:46 | The encoding holds only unreserved characters and `%XX` escapes. |
| UriComponent.DecodeEncode | src/pages/RoomDetail.jsx:26 | Decoding the encoding gives back the original text. |
| UriComponent.DecodeStepShortest | src/pages/RoomDetail.jsx:26 | An escaped character is accepted only in its shortest UTF-8 form. |
| UriComponent.OverlongRejected | src/pages/RoomDetail.jsx:26 | The overlong form "%C0%80" of U+0000 is not read as a character. |
| UriComponent.EncodeInjective | src/pages/Rooms.jsx:46 | No two usernames are encoded alike. |
| JsString.Utf16Length | src/components/JoinRoomForm.jsx:15-17 | The length lies between the character count and twice it. It equals the character count exactly when every character is in the Basic Multilingual Plane. |
| JsString.IncludesIffOccurs | src/components/FileList.jsx:15 | `includes` holds exactly when the text occurs at some position. |
| JsString.TrimStartDropsBlankPrefix | src/components/JoinRoomForm.jsx:13 | A blank prefix makes no difference to trimming. |

## Left out

- The socket.io transport is not modelled. This covers `io()`, the `connect_error` toast, and the socket's own retries. Emits and reconnect requests are recorded actions, not effects.
- Events.On, Events.Off: property names inherited from `Object.prototype` (for example "constructor") are treated as unknown. In the source `eventHandlers[event]` is then truthy, so `on` calls `push` and `off` calls `filter` on a value that has neither, and both throw a `TypeError`. Such names never occur in the client.
- Malformed payloads are not modelled. Examples are a `userJoined` event without `user`, or a create reply without `data`. Each payload carries the fields the client reads, and in the model they are always present.
- Handler re-entrancy is not modelled: a handler that calls `on` or `off` while an event is dispatched.
- The page's own transitions that the code does not have are not modelled. There is no "joining" state. A `roomJoinError` only shows a toast on the room page.
- The toast shown by `fetchRoomData` and the `navigate` call itself are not modelled. The model records the redirect target.
- UserList.SortUsers: `localeCompare` is modelled as lexicographic order on code points. The real order depends on the browser's collation.
- UserList.SortUsers: when several users carry the current id, the comparator is inconsistent and the engine's order among them is implementation-defined. The model keeps them in input order.
- Rooms.UrlCarriesUsername: the room id is put into the address as it stands (src/pages/Rooms.jsx:46 and 52), without encoding. A room id holding '?' or '#' would move the start of the query or add a fragment, and the username would then be misread. Rooms.QueryIsTheUsername therefore covers only room ids without those characters.
- UriComponent.Encode: strings are sequences of Unicode scalar values, so the `URIError` that `encodeURIComponent` throws on a lone surrogate cannot arise.
- UriComponent.Decode: this is the inverse used to state that the encoding is lossless, and it agrees with `URLSearchParams` only on what `encodeURIComponent` produces. On other input it differs in two ways. Escapes that are not valid shortest-form UTF-8 give `None`, where `URLSearchParams` substitutes U+FFFD. A '%' not followed by two hexadecimal digits also gives `None`, where `URLSearchParams` keeps the '%' as it stands.
- Time and size formatting are not modelled: message times, megabyte figures, `formatDistanceToNow` and `formatFileSize`. `src/utils` is not part of this model.
- Upload progress and the HTTP wrappers (`src/services/api.js`, `src/components/FileUpload.jsx`) are not modelled. Their results enter the model as response values.
- Pure presentation is not modelled: headers, footers, the home and not-found pages, the loader, room cards, clipboard copying and the rendering of toasts.
- `sendSignal` and `inviteToRoom` are modelled only as emits (`Connection.SendSignal`, `Connection.InviteToRoom`). No page in the modelled core calls them.

## Behaviour worth knowing

- `off` removes every copy of a handler from the kind's list.
- Auto-join on mount sends the route's room id and the query's username.
- The current user's name is the page's query username. A name typed into the join form goes out with the join request but does not become the current user's name.
