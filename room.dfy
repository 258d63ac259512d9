/** The room page (`RoomComponent`): the sidebar list, the user's identity
    on entry, sending a message and deleting a room, over the shared local
    storage. Browser dialogs, the generated UUID and the outcome of the
    remote calls are parameters; alerts and the messages handed to the chat
    service are recorded in ghost logs. */
module Room {
  import opened Options
  import opened Text
  import opened Directory
  import opened Identity
  import opened Storage

  const HandleRequiredAlert := "A handle is required to join the chat."

  /** The component's `currentUser` record. */
  datatype User = User(userId: string, userName: string, color: string)

  /** The four arguments `sendMessage` hands to the chat service. */
  datatype Submission = Submission(userId: string, userName: string, text: string, color: string)

  class RoomComponent {
    const store: LocalStorage
    var rooms: seq<string>
    var roomId: string
    var userName: string
    var color: string
    var message: string
    var currentUser: User
    ghost var alerts: seq<string>
    ghost var submitted: seq<Submission>

    constructor (store: LocalStorage)
      ensures this.store == store
      ensures rooms == [] && roomId == "" && userName == "" && color == "#000000" && message == ""
      ensures currentUser == User("", "", "#000000")
      ensures alerts == [] && submitted == []
    {
      this.store := store;
      rooms, roomId, userName, color, message := [], "", "", "#000000", "";
      currentUser := User("", "", "#000000");
      alerts, submitted := [], [];
    }

    /** `loadRooms`: the sidebar shows what storage holds. */
    method LoadRooms()
      modifies this`rooms
      ensures rooms == store.rooms
    {
      rooms := store.rooms;
    }

    /** `saveRoom`: a read-modify-write of the stored list. An id already
        stored changes nothing; a sixth id is refused with an alert; otherwise
        the id is pushed at the end and the sidebar shows the new list. */
    method SaveRoom(id: string)
      modifies this`rooms, this`alerts, store`rooms
      ensures store.rooms == Saved(old(store.rooms), id)
      ensures Outcome(old(store.rooms), id) == Appended ==> rooms == store.rooms
      ensures Outcome(old(store.rooms), id) != Appended ==> rooms == old(rooms)
      ensures alerts == old(alerts) + if Outcome(old(store.rooms), id) == Full then [CapacityAlert] else []
    {
      var stored := store.rooms;
      if id !in stored {
        if |stored| >= MaxRooms {
          alerts := alerts + [CapacityAlert];
          return;
        }
        stored := stored + [id];
        store.rooms := stored;
        rooms := stored;
      }
    }

    /** `ngOnInit` in the browser. The route's id (or `public`) becomes the
        room and is saved to the sidebar; the identity is resolved from
        storage; then the room is saved once more, which changes nothing,
        and the sidebar is reloaded. */
    method NgOnInit(routeId: Option<string>, freshId: string, answer: Option<string>)
      modifies this, store
      ensures roomId == routeId.GetOr(PublicRoom)
      ensures store.rooms == Saved(old(store.rooms), roomId) && rooms == store.rooms
      ensures store.items == EnterPrefs(old(store.items), freshId, answer)
      ensures currentUser.userId == ResolvedUserId(old(store.items), freshId)
      ensures currentUser.userName == ResolvedHandle(old(store.items), answer).GetOr(old(currentUser.userName))
      ensures userName == ResolvedHandle(old(store.items), answer).GetOr(old(userName))
      ensures currentUser.color == Adopted(old(store.items), ColorKey).GetOr(old(currentUser.color))
      ensures color == Adopted(old(store.items), ColorKey).GetOr(old(color))
      ensures message == old(message) && submitted == old(submitted)
      ensures var full := if Outcome(old(store.rooms), roomId) == Full then [CapacityAlert] else [];
              var noHandle := if ResolvedHandle(old(store.items), answer).None? then [HandleRequiredAlert] else [];
              alerts == old(alerts) + full + noHandle + full
    {
      roomId := routeId.GetOr(PublicRoom);
      ghost var before := store.rooms;
      SaveRoom(roomId);
      ghost var afterFirst := store.rooms;
      LoadRooms();
      ResolveIdentity(freshId, answer);
      assert store.rooms == afterFirst == Saved(before, roomId);
      SaveIdempotent(before, roomId);
      assert Outcome(afterFirst, roomId) == Outcome(before, roomId) || Outcome(afterFirst, roomId) == AlreadySaved;
      SaveRoom(roomId);
      LoadRooms();
    }

    /** The identity part of `ngOnInit`: a stored user id is reused, and only
        when none is stored is `freshId` written and used; a stored handle is
        used without writing, otherwise a non-blank prompt answer is stored
        trimmed, and a cancelled or blank answer only raises an alert; a
        stored colour replaces the current one. */
    method ResolveIdentity(freshId: string, answer: Option<string>)
      modifies this`currentUser, this`userName, this`color, this`alerts, store`items
      ensures store.items == EnterPrefs(old(store.items), freshId, answer)
      ensures currentUser.userId == ResolvedUserId(old(store.items), freshId)
      ensures currentUser.userName == ResolvedHandle(old(store.items), answer).GetOr(old(currentUser.userName))
      ensures userName == ResolvedHandle(old(store.items), answer).GetOr(old(userName))
      ensures currentUser.color == Adopted(old(store.items), ColorKey).GetOr(old(currentUser.color))
      ensures color == Adopted(old(store.items), ColorKey).GetOr(old(color))
      ensures alerts == old(alerts) + if ResolvedHandle(old(store.items), answer).None? then [HandleRequiredAlert] else []
    {
      KeysDistinct();
      var prefs := store.items;
      var storedHandle := Get(prefs, HandleKey);
      var storedColor := Get(prefs, ColorKey);
      var storedId := Get(prefs, UserIdKey);
      UseUserId(storedId, freshId);
      assert store.items == if Adopted(prefs, UserIdKey).Some? then prefs else prefs[UserIdKey := freshId];
      UseHandle(storedHandle, answer);
      assert ResolvedHandle(prefs, answer) == if Truthy(storedHandle) then storedHandle else PromptedHandle(answer);
      UseColor(storedColor);
    }

    /** Keeps the stored user id, or stores and uses `freshId`. `storedId` is
        the `userId` entry as the caller read it before any write, as
        `ngOnInit` reads all three entries up front; `ResolveIdentity` ties it
        to storage. */
    method UseUserId(storedId: Option<string>, freshId: string)
      modifies this`currentUser, store`items
      ensures Truthy(storedId) ==> store.items == old(store.items) && currentUser == old(currentUser).(userId := storedId.value)
      ensures !Truthy(storedId) ==> store.items == old(store.items)[UserIdKey := freshId] && currentUser == old(currentUser).(userId := freshId)
    {
      if !Truthy(storedId) {
        store.items := store.items[UserIdKey := freshId];
        currentUser := currentUser.(userId := freshId);
      } else {
        currentUser := currentUser.(userId := storedId.value);
      }
    }

    /** The handle lock. `storedHandle` is the `handle` entry as the caller
        read it before any write (`ResolveIdentity` ties it to storage).
        A stored handle is used and nothing is written; otherwise a non-blank
        answer is stored trimmed and used, and a cancelled or blank one raises
        the alert and leaves the handle as it was. */
    method UseHandle(storedHandle: Option<string>, answer: Option<string>)
      modifies this`currentUser, this`userName, this`alerts, store`items
      ensures Truthy(storedHandle) ==>
        && store.items == old(store.items) && alerts == old(alerts)
        && userName == storedHandle.value && currentUser == old(currentUser).(userName := storedHandle.value)
      ensures !Truthy(storedHandle) && PromptedHandle(answer).Some? ==>
        var h := PromptedHandle(answer).value;
        && store.items == old(store.items)[HandleKey := h] && alerts == old(alerts)
        && userName == h && currentUser == old(currentUser).(userName := h)
      ensures !Truthy(storedHandle) && PromptedHandle(answer).None? ==>
        && store.items == old(store.items) && alerts == old(alerts) + [HandleRequiredAlert]
        && userName == old(userName) && currentUser == old(currentUser)
    {
      if Truthy(storedHandle) {
        userName := storedHandle.value;
        currentUser := currentUser.(userName := storedHandle.value);
      } else {
        if answer.Some? && answer.value != "" && Trim(answer.value) != "" {
          assert PromptedHandle(answer) == Some(Trim(answer.value));
          store.items := store.items[HandleKey := Trim(answer.value)];
          userName := Trim(answer.value);
          currentUser := currentUser.(userName := Trim(answer.value));
        } else {
          assert PromptedHandle(answer) == None;
          alerts := alerts + [HandleRequiredAlert];
        }
      }
    }

    /** A stored colour replaces the current one. `storedColor` is the
        `color` entry as the caller read it up front (`ResolveIdentity` ties
        it to storage). */
    method UseColor(storedColor: Option<string>)
      modifies this`currentUser, this`color
      ensures Truthy(storedColor) ==> color == storedColor.value && currentUser == old(currentUser).(color := storedColor.value)
      ensures !Truthy(storedColor) ==> color == old(color) && currentUser == old(currentUser)
    {
      if Truthy(storedColor) {
        color := storedColor.value;
        currentUser := currentUser.(color := storedColor.value);
      }
    }

    /** `sendMessage`: a blank message is ignored. Otherwise the message, as
        typed, goes to the chat service once with the current identity, and
        the input is cleared when the service call succeeds (`accepted`). */
    method SendMessage(accepted: bool)
      modifies this`message, this`submitted
      ensures IsBlank(old(message)) ==> message == old(message) && submitted == old(submitted)
      ensures !IsBlank(old(message)) ==>
        submitted == old(submitted) + [Submission(currentUser.userId, currentUser.userName, old(message), currentUser.color)]
      ensures !IsBlank(old(message)) && accepted ==> message == ""
      ensures !accepted ==> message == old(message)
    {
      var text := message;
      TrimEmptyIffBlank(text);
      if Trim(text) == "" {
        return;
      }
      submitted := submitted + [Submission(currentUser.userId, currentUser.userName, text, currentUser.color)];
      if accepted {
        message := "";
      }
    }

    /** `deleteRoom`: nothing happens unless the user confirms and the remote
        message listing succeeds (`fetched`); then the id is filtered out of
        the list the sidebar shows and that list is stored. */
    method DeleteRoom(id: string, confirmed: bool, fetched: bool)
      modifies this`rooms, store`rooms
      ensures !confirmed || !fetched ==> rooms == old(rooms) && store.rooms == old(store.rooms)
      ensures confirmed && fetched ==> rooms == Removed(old(rooms), id) && store.rooms == rooms
    {
      if !confirmed {
        return;
      }
      if !fetched {
        return;
      }
      var updated := Removed(rooms, id);
      store.rooms := updated;
      rooms := updated;
    }
  }
}
