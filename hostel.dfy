/** The room and hostel rules of HostelInfo: the response cache, the
    sharing-type and available-beds handlers, `addRoom`, the hostel-form
    check, the room pages and the backend/frontend room mappers. */
module Hostel {
  import opened Wrappers
  import opened JsValues
  import Ttl

  // ---------------------------------------------------------------------
  // The module-level cache

  /** `cache.maxAge`: five minutes in milliseconds. */
  const HostelCacheMaxAge: int := 5 * 60 * 1000

  function HostelCacheKeys(): set<string> {
    {"hostel", "rooms"}
  }

  /** The initial `cache` object: both resources empty. */
  method NewHostelCache<T>() returns (c: Ttl.KeyedCache<T>)
    ensures fresh(c)
    ensures c.maxAge == HostelCacheMaxAge
    ensures c.entries.Keys == HostelCacheKeys()
    ensures forall k :: k in c.entries ==> c.entries[k] == Ttl.EmptyEntry()
  {
    c := new Ttl.KeyedCache(HostelCacheKeys(), HostelCacheMaxAge);
  }

  /** `fetchHostel` passes `forceRefresh: true`: the hostel is requested on
      every call however fresh the entry, and a successful answer is stored. */
  lemma HostelAlwaysRequested<T>(e: Ttl.Entry<T>, now: int, response: Ttl.Response<T>, storedAt: int)
    ensures var l := Ttl.ReadThrough(e, now, HostelCacheMaxAge, true, response, storedAt);
      l.requested && (response.Fetched? ==> l.stored && l.entry == Ttl.Entry(Some(response.body), Some(storedAt)))
  {
  }

  /** `fetchRooms` does not force: stored rooms are reused for five minutes,
      and only for five minutes. */
  lemma {:induction false} RoomsReusedForFiveMinutes<T>(body: T, t: int, now: int, response: Ttl.Response<T>, storedAt: int)
    requires t != 0 && t <= now
    ensures !Ttl.ReadThrough(Ttl.Entry(Some(body), Some(t)), now, HostelCacheMaxAge, false, response, storedAt).requested
      <==> now < t + 300000
  {
    var e := Ttl.Entry(Some(body), Some(t));
    if now < t + 300000 {
      assert Ttl.Servable(e, now, HostelCacheMaxAge, false);
    } else {
      Ttl.ExpiredIsRefetched(body, t, now, HostelCacheMaxAge, response, storedAt);
    }
  }

  // ---------------------------------------------------------------------
  // The room form

  /** The inputs of the room form, by their `name` attributes. */
  datatype RoomField = Number | Type | Beds | AvailableBeds | Rent

  /** `newRoom` (and a room of the `rooms` list, which has the same shape);
      `roomType` is the source's `type`. */
  datatype RoomForm = RoomForm(number: JsValue, roomType: JsValue, beds: JsValue, availableBeds: JsValue, rent: JsValue)
  {
    function Get(f: RoomField): JsValue {
      match f
      case Number => number
      case Type => roomType
      case Beds => beds
      case AvailableBeds => availableBeds
      case Rent => rent
    }
  }

  /** The form after a submission: every field empty. */
  function BlankRoom(): RoomForm {
    RoomForm(Str(""), Str(""), Str(""), Str(""), Str(""))
  }

  /** The sharing types the type selector offers, in bed-count order. */
  const SharingTypes: seq<string> := ["Single Sharing", "Two Sharing", "Three Sharing", "Four Sharing"]

  /** The `switch` on the selected type: the k-th sharing type has k beds;
      any other value has the empty string. */
  function BedsFor(value: string): (beds: JsValue)
    ensures forall i :: 0 <= i < |SharingTypes| ==> (value == SharingTypes[i] <==> beds == Num(i + 1))
    ensures beds == Str("") <==> value !in SharingTypes
  {
    if value == "Single Sharing" then Num(1)
    else if value == "Two Sharing" then Num(2)
    else if value == "Three Sharing" then Num(3)
    else if value == "Four Sharing" then Num(4)
    else Str("")
  }

  /** `handleRoomChange`: choosing a type also sets `beds` and
      `availableBeds` from it; any other input sets just its own field. */
  function HandleRoomChange(room: RoomForm, name: RoomField, value: string): (r: RoomForm)
    ensures name == Type ==>
      && r.roomType == Str(value) && r.beds == BedsFor(value) && r.availableBeds == r.beds
      && r.number == room.number && r.rent == room.rent
    ensures name != Type ==> forall f :: r.Get(f) == if f == name then Str(value) else room.Get(f)
  {
    match name
    case Type =>
      var beds := BedsFor(value);
      room.(roomType := Str(value), beds := beds, availableBeds := beds)
    case Number => room.(number := Str(value))
    case Beds => room.(beds := Str(value))
    case AvailableBeds => room.(availableBeds := Str(value))
    case Rent => room.(rent := Str(value))
  }

  /** `parseInt(text, 10) || 0`: non-numeric text counts as 0. */
  function BedsInput(text: string): int {
    match ParseInt(text, 10)
    case Some(n) => n
    case None => 0
  }

  /** `handleAvailableBedsChange`: the parsed value is taken only when it
      lies between 0 and `beds` (compared as numbers); otherwise the room is
      left as it was. */
  function HandleAvailableBedsChange(room: RoomForm, text: string): (r: RoomForm)
    ensures r == room || r == room.(availableBeds := Num(BedsInput(text)))
    ensures r.availableBeds == Num(BedsInput(text))
      <== 0 <= BedsInput(text) && LooseAtMost(BedsInput(text), room.beds)
    ensures r != room ==> 0 <= BedsInput(text) && LooseAtMost(BedsInput(text), room.beds)
  {
    var value := BedsInput(text);
    if value >= 0 && LooseAtMost(value, room.beds) then room.(availableBeds := Num(value)) else room
  }

  /** After choosing the k-th sharing type, typing a count `n` sets
      `availableBeds` to `n` exactly when `0 <= n <= k`. */
  lemma {:induction false} AvailableBedsBoundedBySharing(room: RoomForm, i: nat, n: int)
    requires i < |SharingTypes|
    ensures var typed := HandleRoomChange(room, Type, SharingTypes[i]);
      var r := HandleAvailableBedsChange(typed, IntToString(n));
      (r.availableBeds == Num(n) && r.beds == Num(i + 1)) <== 0 <= n <= i + 1
    ensures var typed := HandleRoomChange(room, Type, SharingTypes[i]);
      HandleAvailableBedsChange(typed, IntToString(n)) == typed <== n < 0 || n > i + 1
  {
    ParseIntOfString(n, 10);
    assert BedsInput(IntToString(n)) == n;
    var typed := HandleRoomChange(room, Type, SharingTypes[i]);
    assert typed.beds == Num(i + 1);
  }

  /** With no recognised type (`beds` is ""), which `Number` reads as 0,
      the only count accepted is 0, and text that is not a number counts as 0. */
  lemma {:induction false} UnknownTypeAcceptsOnlyZero(room: RoomForm, text: string)
    requires room.beds == Str("")
    ensures HandleAvailableBedsChange(room, text) == room
      || HandleAvailableBedsChange(room, text) == room.(availableBeds := Num(0))
  {
    assert ToNumber(room.beds) == Some(Finite(0.0)) by {
      assert Trim("") == "";
    }
  }

  // ---------------------------------------------------------------------
  // Mappers

  /** A room as the backend stores it. */
  datatype BackendRoom = BackendRoom(roomNumber: JsValue, sharingType: JsValue, totalBeds: JsValue, availableBeds: JsValue, rent: JsValue)

  /** `mapBackendRoomToFrontend`. */
  function ToFrontend(b: BackendRoom): RoomForm {
    RoomForm(b.roomNumber, b.sharingType, b.totalBeds, b.availableBeds, b.rent)
  }

  /** `mapFrontendRoomToBackend`: the three counts go through `parseInt(_, 10)`. */
  function ToBackend(f: RoomForm): BackendRoom {
    BackendRoom(f.number, f.roomType, ParseIntValue(f.beds, 10), ParseIntValue(f.availableBeds, 10), ParseIntValue(f.rent, 10))
  }

  /** `parseInt(String(n), 10)` is `n`. */
  lemma ParsedNumber(n: int)
    ensures ParseIntValue(Num(n), 10) == Num(n)
  {
    ParseIntOfString(n, 10);
  }

  /** A backend room with integer counts survives the trip to the form and
      back unchanged. */
  lemma {:induction false} BackendRoundTrip(b: BackendRoom)
    requires b.totalBeds.Num? && b.availableBeds.Num? && b.rent.Num?
    ensures ToBackend(ToFrontend(b)) == b
  {
    ParsedNumber(b.totalBeds.n);
    ParsedNumber(b.availableBeds.n);
    ParsedNumber(b.rent.n);
  }

  /** Counts typed as decimal text reach the backend as the numbers they spell. */
  lemma {:induction false} TypedCountsParsed(f: RoomForm, beds: int, free: int, rent: int)
    requires f.beds == Str(IntToString(beds)) && f.availableBeds == Str(IntToString(free)) && f.rent == Str(IntToString(rent))
    ensures var b := ToBackend(f);
      b.totalBeds == Num(beds) && b.availableBeds == Num(free) && b.rent == Num(rent)
  {
    ParseIntOfString(beds, 10);
    ParseIntOfString(free, 10);
    ParseIntOfString(rent, 10);
  }

  // ---------------------------------------------------------------------
  // addRoom

  /** The body of an edit: the four properties a room may change. */
  datatype EditableFields = EditableFields(sharingType: JsValue, rent: JsValue, totalBeds: JsValue, availableBeds: JsValue)

  /** The request `addRoom` hands to `handleRoomSubmit`. */
  datatype RoomRequest = CreateRoom(body: BackendRoom) | EditRoom(roomId: string, fields: EditableFields)

  /** What `addRoom` did: nothing (a field missing), threw because the
      edited index no longer names a room, or submitted a request; `status`
      is the one it computed. */
  datatype AddRoomResult = Incomplete | EditedRoomGone | Submitted(request: RoomRequest, status: string)

  /** The room-form state `addRoom` reads and resets. */
  datatype RoomScreen = RoomScreen(newRoom: RoomForm, editRoomId: Option<nat>, error: string, showRoomFormModal: bool)

  /** The form holds everything `addRoom` needs: number, type and rent are
      truthy, and beds and available beds are not the empty string. */
  predicate RoomReady(room: RoomForm) {
    forall f :: if f == Beds || f == AvailableBeds then room.Get(f) != Str("") else Truthy(room.Get(f))
  }

  /** `parseInt(availableBeds) === 0 ? "Occupied" : "Available"`. */
  function RoomStatus(room: RoomForm): string {
    if StrictEquals(ParseIntValue(room.availableBeds, 0), Num(0)) then "Occupied" else "Available"
  }

  /** A room with a numeric free-bed count is occupied exactly when that
      count is 0. */
  lemma {:induction false} OccupiedIffNoFreeBeds(room: RoomForm, n: int)
    requires room.availableBeds == Num(n)
    ensures RoomStatus(room) == "Occupied" <==> n == 0
  {
    ParseIntOfString(n, 0);
  }

  /** The early-return test of `addRoom`, as the source writes it. */
  predicate MissingRoomField(room: RoomForm) {
    !Truthy(room.number) || !Truthy(room.roomType) || StrictEquals(room.beds, Str(""))
    || StrictEquals(room.availableBeds, Str("")) || !Truthy(room.rent)
  }

  /** The early return fires exactly when the form is not ready. */
  lemma MissingIffNotReady(room: RoomForm)
    ensures MissingRoomField(room) <==> !RoomReady(room)
  {
    if !MissingRoomField(room) {
      forall f ensures if f == Beds || f == AvailableBeds then room.Get(f) != Str("") else Truthy(room.Get(f)) {
      }
    } else if !Truthy(room.number) {
      assert !Truthy(room.Get(Number));
    } else if !Truthy(room.roomType) {
      assert !Truthy(room.Get(Type));
    } else if room.beds == Str("") {
      assert room.Get(Beds) == Str("");
    } else if room.availableBeds == Str("") {
      assert room.Get(AvailableBeds) == Str("");
    } else {
      assert !Truthy(room.Get(Rent));
    }
  }

  /** `addRoom`, given the current `rooms` list. */
  function AddRoom(st: RoomScreen, rooms: seq<RoomForm>): (r: (RoomScreen, AddRoomResult))
    ensures r.1.Incomplete? <==> !RoomReady(st.newRoom)
    ensures r.1.EditedRoomGone? <==> RoomReady(st.newRoom) && st.editRoomId.Some? && st.editRoomId.value >= |rooms|
    ensures !r.1.Submitted? ==> r.0 == st
    ensures r.1.Submitted? ==>
      && r.0 == RoomScreen(BlankRoom(), None, "", false)
      && r.1.status == RoomStatus(st.newRoom)
    ensures r.1.Submitted? && st.editRoomId.None? ==> r.1.request == CreateRoom(ToBackend(st.newRoom))
    ensures r.1.Submitted? && st.editRoomId.Some? ==>
      var b := ToBackend(st.newRoom);
      r.1.request == EditRoom(ToStr(rooms[st.editRoomId.value].number),
                              EditableFields(b.sharingType, b.rent, b.totalBeds, b.availableBeds))
  {
    var room := st.newRoom;
    var status := RoomStatus(room);
    MissingIffNotReady(room);
    if MissingRoomField(room) then (st, Incomplete)
    else
      var backend := ToBackend(room);
      var reset := RoomScreen(BlankRoom(), None, "", false);
      match st.editRoomId
      case Some(i) =>
        if i < |rooms| then
          var fields := EditableFields(backend.sharingType, backend.rent, backend.totalBeds, backend.availableBeds);
          (reset, Submitted(EditRoom(ToStr(rooms[i].number), fields), status))
        else (st, EditedRoomGone)
      case None => (reset, Submitted(CreateRoom(backend), status))
  }

  /** An edit is addressed by the number stored in the `rooms` list, so
      retyping the number in the form neither renames the room nor sends
      the new number. */
  lemma EditIgnoresTypedNumber(st: RoomScreen, rooms: seq<RoomForm>, typed: string)
    requires AddRoom(st, rooms).1.Submitted? && st.editRoomId.Some?
    ensures AddRoom(st.(newRoom := st.newRoom.(number := Str(typed))), rooms).1 == AddRoom(st, rooms).1
      <== typed != ""
  {
    var st' := st.(newRoom := st.newRoom.(number := Str(typed)));
    if typed != "" {
      assert RoomReady(st.newRoom);
      assert RoomReady(st'.newRoom) by {
        forall f ensures if f == Beds || f == AvailableBeds then st'.newRoom.Get(f) != Str("") else Truthy(st'.newRoom.Get(f)) {
          if f != Number {
            assert st'.newRoom.Get(f) == st.newRoom.Get(f);
          }
        }
      }
    }
  }

  // ---------------------------------------------------------------------
  // The hostel form

  /** The keys of the object `getHostelData` builds. */
  datatype HostelKey = Name | Category | TotalRooms | MaxCapacity

  /** `hostelInfo`, as `getHostelData` returns it. */
  datatype HostelRecord = HostelRecord(name: JsValue, category: JsValue, totalRooms: JsValue, maxCapacity: JsValue)
  {
    function Get(k: HostelKey): JsValue {
      match k
      case Name => name
      case Category => category
      case TotalRooms => totalRooms
      case MaxCapacity => maxCapacity
    }
  }

  /** `validateHostelData`: every key but `category` must be truthy. */
  function ValidateHostelData(info: HostelRecord): (ok: bool)
    ensures ok <==> forall k :: k != Category ==> Truthy(info.Get(k))
  {
    if !Truthy(info.name) || !Truthy(info.totalRooms) || !Truthy(info.maxCapacity) then
      assert !Truthy(info.Get(Name)) || !Truthy(info.Get(TotalRooms)) || !Truthy(info.Get(MaxCapacity));
      false
    else true
  }

  /** A room count or capacity of 0 is refused, as is an empty name. */
  lemma ZeroCountsRefused(info: HostelRecord)
    requires info.totalRooms == Num(0) || info.maxCapacity == Num(0) || info.name == Str("")
    ensures !ValidateHostelData(info)
  {
    assert !Truthy(info.Get(TotalRooms)) || !Truthy(info.Get(MaxCapacity)) || !Truthy(info.Get(Name));
  }

  // ---------------------------------------------------------------------
  // Pagination

  /** `roomsPerPage`. */
  const RoomsPerPage: nat := 10

  /** `Math.ceil(rooms.length / roomsPerPage)`: the fewest pages of ten
      that hold `count` rooms. */
  function TotalPages(count: nat): (t: nat)
    ensures RoomsPerPage * (t - 1) < count <= RoomsPerPage * t
  {
    (count + RoomsPerPage - 1) / RoomsPerPage
  }

  /** `rooms.slice((pageNumber - 1) * roomsPerPage, pageNumber * roomsPerPage)`. */
  function DisplayedRooms<T>(rooms: seq<T>, pageNumber: int): (page: seq<T>)
    ensures |page| <= RoomsPerPage
    ensures pageNumber >= 1 && (pageNumber - 1) * RoomsPerPage < |rooms| ==>
      page == rooms[(pageNumber - 1) * RoomsPerPage .. Min(pageNumber * RoomsPerPage, |rooms|)]
    ensures pageNumber > TotalPages(|rooms|) ==> page == []
  {
    Slice(rooms, (pageNumber - 1) * RoomsPerPage, pageNumber * RoomsPerPage)
  }

  function Min(a: int, b: int): int {
    if a < b then a else b
  }

  /** Pages 1 to `k`, one after the other. */
  function FirstPages<T>(rooms: seq<T>, k: nat): seq<T> {
    if k == 0 then [] else FirstPages(rooms, k - 1) + DisplayedRooms(rooms, k)
  }

  /** The first `k` pages are the first `10k` rooms. */
  lemma {:induction false} FirstPagesPrefix<T>(rooms: seq<T>, k: nat)
    ensures FirstPages(rooms, k) == rooms[..Min(k * RoomsPerPage, |rooms|)]
  {
    if k > 0 {
      FirstPagesPrefix(rooms, k - 1);
      var a := Min((k - 1) * RoomsPerPage, |rooms|);
      var b := Min(k * RoomsPerPage, |rooms|);
      if (k - 1) * RoomsPerPage < |rooms| {
        assert rooms[..a] + rooms[a..b] == rooms[..b];
      } else {
        assert a == b;
      }
    }
  }

  /** Paging loses and repeats nothing: pages 1 to `totalPages` together
      are the whole room list, in order. */
  lemma PagesCoverRooms<T>(rooms: seq<T>)
    ensures FirstPages(rooms, TotalPages(|rooms|)) == rooms
  {
    FirstPagesPrefix(rooms, TotalPages(|rooms|));
  }

  /** Room `i` is shown at position `i % 10` of page `i / 10 + 1`, and that
      page exists. */
  lemma RoomOnItsPage<T>(rooms: seq<T>, i: nat)
    requires i < |rooms|
    ensures 1 <= i / RoomsPerPage + 1 <= TotalPages(|rooms|)
    ensures var page := DisplayedRooms(rooms, i / RoomsPerPage + 1);
      i % RoomsPerPage < |page| && page[i % RoomsPerPage] == rooms[i]
  {
  }
}
