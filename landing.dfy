/** The landing page (`LandingComponent`): handle and colour preferences,
    the entry points that join a room, and the same sidebar list as the room
    page, over the shared local storage. Navigation is left out; the random
    room id and the browser dialogs are parameters. */
module Landing {
  import opened Options
  import opened Text
  import opened Directory
  import opened Identity
  import opened Storage

  /** The colour field before any preference is read. */
  const DefaultColor := "#3b82f6"

  class LandingComponent {
    const store: LocalStorage
    var rooms: seq<string>
    var handle: string
    var color: string
    var roomId: string
    ghost var alerts: seq<string>

    constructor (store: LocalStorage)
      ensures this.store == store
      ensures rooms == [] && handle == "" && color == DefaultColor && roomId == "" && alerts == []
    {
      this.store := store;
      rooms, handle, color, roomId := [], "", DefaultColor, "";
      alerts := [];
    }

    /** `loadRooms`: the sidebar shows what storage holds. */
    method LoadRooms()
      modifies this`rooms
      ensures rooms == store.rooms
    {
      rooms := store.rooms;
    }

    /** `ngOnInit` in the browser: load the sidebar, then adopt the stored
        handle and colour only where they are truthy (otherwise the fields
        keep their values, `''` and `#3b82f6` on a fresh page). */
    method NgOnInit()
      modifies this`rooms, this`handle, this`color
      ensures rooms == store.rooms
      ensures handle == Adopted(store.items, HandleKey).GetOr(old(handle))
      ensures color == Adopted(store.items, ColorKey).GetOr(old(color))
    {
      LoadRooms();
      var savedHandle := Get(store.items, HandleKey);
      var savedColor := Get(store.items, ColorKey);
      if Truthy(savedHandle) {
        handle := savedHandle.value;
      }
      if Truthy(savedColor) {
        color := savedColor.value;
      }
    }

    /** `savePrefs`: the trimmed handle field is stored only when no truthy
        handle is stored, and otherwise the field is reset to the stored
        handle; the colour is always stored. */
    method SavePrefs()
      modifies this`handle, store`items
      ensures store.items == SavedPrefs(old(store.items), old(handle), color)
      ensures handle == Adopted(old(store.items), HandleKey).GetOr(old(handle))
    {
      KeysDistinct();
      if !Truthy(Get(store.items, HandleKey)) {
        store.items := store.items[HandleKey := Trim(handle)];
      } else {
        handle := store.items[HandleKey];
      }
      store.items := store.items[ColorKey := color];
    }

    /** `saveRoom`, the same read-modify-write as on the room page. */
    method SaveRoom(id: string)
      modifies this`rooms, this`alerts, store`rooms
      ensures store.rooms == Saved(old(store.rooms), id)
      ensures Outcome(old(store.rooms), id) == Appended ==> rooms == store.rooms
      ensures Outcome(old(store.rooms), id) != Appended ==> rooms == old(rooms)
      ensures alerts == old(alerts) + if Outcome(old(store.rooms), id) == Full then [CapacityAlert] else []
    {
      var stored := store.rooms;
      if id !in stored {
        if |stored| >= MaxRooms {
          alerts := alerts + [CapacityAlert];
          return;
        }
        stored := stored + [id];
        store.rooms := stored;
        rooms := stored;
      }
    }

    /** `onJoinPublic`: nothing happens while the handle field is blank;
        otherwise the preferences are saved and `public` is saved to the
        sidebar. */
    method OnJoinPublic()
      modifies this`rooms, this`alerts, this`handle, store
      ensures IsBlank(old(handle)) ==>
        && store.items == old(store.items) && store.rooms == old(store.rooms)
        && handle == old(handle) && rooms == old(rooms) && alerts == old(alerts)
      ensures !IsBlank(old(handle)) ==>
        && store.items == SavedPrefs(old(store.items), old(handle), color)
        && handle == Adopted(old(store.items), HandleKey).GetOr(old(handle))
        && store.rooms == Saved(old(store.rooms), PublicRoom)
        && rooms == (if Outcome(old(store.rooms), PublicRoom) == Appended then store.rooms else old(rooms))
        && alerts == old(alerts) + (if Outcome(old(store.rooms), PublicRoom) == Full then [CapacityAlert] else [])
    {
      var name := handle;
      TrimEmptyIffBlank(name);
      if Trim(name) == "" {
        return;
      }
      ghost var stored := store.rooms;
      SavePrefs();
      assert store.rooms == stored;
      SaveRoom(PublicRoom);
    }

    /** `generateId`: the new room id (`freshId`, a random base-36 code) goes
        into the room field, the preferences are saved with no blank check,
        and the id is saved to the sidebar. */
    method GenerateId(freshId: string)
      modifies this`rooms, this`alerts, this`handle, this`roomId, store
      ensures roomId == freshId
      ensures store.items == SavedPrefs(old(store.items), old(handle), color)
      ensures handle == Adopted(old(store.items), HandleKey).GetOr(old(handle))
      ensures store.rooms == Saved(old(store.rooms), freshId)
      ensures rooms == if Outcome(old(store.rooms), freshId) == Appended then store.rooms else old(rooms)
      ensures alerts == old(alerts) + if Outcome(old(store.rooms), freshId) == Full then [CapacityAlert] else []
    {
      roomId := freshId;
      SavePrefs();
      SaveRoom(roomId);
    }

    /** `onJoinCustom`: nothing happens while the handle or the room field is
        blank; otherwise the preferences are saved and the room field, as
        typed and not trimmed, is saved to the sidebar. */
    method OnJoinCustom()
      modifies this`rooms, this`alerts, this`handle, store
      ensures IsBlank(old(handle)) || IsBlank(roomId) ==>
        && store.items == old(store.items) && store.rooms == old(store.rooms)
        && handle == old(handle) && rooms == old(rooms) && alerts == old(alerts)
      ensures !IsBlank(old(handle)) && !IsBlank(roomId) ==>
        && store.items == SavedPrefs(old(store.items), old(handle), color)
        && handle == Adopted(old(store.items), HandleKey).GetOr(old(handle))
        && store.rooms == Saved(old(store.rooms), roomId)
        && rooms == (if Outcome(old(store.rooms), roomId) == Appended then store.rooms else old(rooms))
        && alerts == old(alerts) + (if Outcome(old(store.rooms), roomId) == Full then [CapacityAlert] else [])
    {
      var name, id := handle, roomId;
      TrimEmptyIffBlank(name);
      TrimEmptyIffBlank(id);
      if Trim(name) == "" || Trim(id) == "" {
        return;
      }
      ghost var stored := store.rooms;
      SavePrefs();
      assert store.rooms == stored;
      SaveRoom(roomId);
    }

    /** `deleteRoom`: nothing happens unless the user confirms and the remote
        message listing succeeds (`fetched`); then the id is filtered out of
        the list the sidebar shows and that list is stored. */
    method DeleteRoom(id: string, confirmed: bool, fetched: bool)
      modifies this`rooms, store`rooms
      ensures !confirmed || !fetched ==> rooms == old(rooms) && store.rooms == old(store.rooms)
      ensures confirmed && fetched ==> rooms == Removed(old(rooms), id) && store.rooms == rooms
    {
      if !confirmed {
        return;
      }
      if !fetched {
        return;
      }
      var updated := Removed(rooms, id);
      store.rooms := updated;
      rooms := updated;
    }
  }
}
