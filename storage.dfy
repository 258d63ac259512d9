/** Local storage as the two pages share it: the string preferences and the
    decoded `rooms` list (absent reads as the empty list). */
module Storage {

  class LocalStorage {
    var items: map<string, string>
    var rooms: seq<string>

    constructor ()
      ensures items == map[] && rooms == []
    {
      items := map[];
      rooms := [];
    }
  }
}
