/** The tenant screen (TenantInfo): its resource cache, the change handler
    and the validator of the tenant form, the column-sort toggle and the
    rooms offered in the form. */
module Tenant {
  import opened Wrappers
  import opened JsValues
  import opened Seqs
  import Ttl

  // ---------------------------------------------------------------------
  // The module-level cache

  /** `cache.maxAge`: five minutes, in milliseconds. */
  const CacheMaxAge: int := 5 * 60 * 1000

  /** The resources the cache holds an entry for. */
  function CacheKeys(): set<string> {
    {"hostel", "rooms", "tenants"}
  }

  /** The initial `cache` object: the three resources, empty, and `maxAge`. */
  method NewCache<T>() returns (c: Ttl.KeyedCache<T>)
    ensures fresh(c)
    ensures c.maxAge == CacheMaxAge
    ensures c.entries.Keys == CacheKeys()
    ensures forall k :: k in c.entries ==> c.entries[k] == Ttl.EmptyEntry()
  {
    c := new Ttl.KeyedCache(CacheKeys(), CacheMaxAge);
  }

  /** `fetchTenants` passes `forceRefresh: true`: the tenant list is
      requested on every call, and a successful answer is stored. */
  lemma TenantListAlwaysRequested<T>(e: Ttl.Entry<T>, now: int, response: Ttl.Response<T>, storedAt: int)
    ensures var l := Ttl.ReadThrough(e, now, CacheMaxAge, true, response, storedAt);
      l.requested && (response.Fetched? ==> l.stored && l.answer == Ttl.Value(response.body))
  {
  }

  /** The other two resources are answered from memory for five minutes
      after they were stored, and only for five minutes. */
  lemma {:induction false} HostelAndRoomsReusedForFiveMinutes<T>(body: T, t: int, now: int, response: Ttl.Response<T>, storedAt: int)
    requires t != 0 && t <= now
    ensures !Ttl.ReadThrough(Ttl.Entry(Some(body), Some(t)), now, CacheMaxAge, false, response, storedAt).requested
      <==> now < t + 300000
  {
    var e := Ttl.Entry(Some(body), Some(t));
    if now < t + 300000 {
      assert Ttl.Servable(e, now, CacheMaxAge, false);
    } else {
      Ttl.ExpiredIsRefetched(body, t, now, CacheMaxAge, response, storedAt);
    }
  }

  // ---------------------------------------------------------------------
  // The tenant form

  /** A value of the `newTenant` object: text from an input, a checkbox
      state, or a nested object of text (an address, the emergency
      contact). */
  datatype Field = Text(s: string) | Flag(b: bool) | Group(fields: map<string, string>)

  /** `newTenant`: a key that is absent reads as `undefined`. */
  type Form = map<string, Field>

  /** The form together with the separate `addressesSame` state. */
  datatype FormState = FormState(tenant: Form, addressesSame: bool)

  /** The parts of the change event the handler reads: `name`, `value`,
      whether the input is a checkbox, and `checked`. */
  datatype InputEvent = InputEvent(name: string, value: string, isCheckbox: bool, checked: bool)

  /** The fields of the nested object under `key`, as `{ ...form[key] }`
      spreads them; anything that is not a nested object spreads nothing. */
  function Members(form: Form, key: string): map<string, string> {
    if key in form && form[key].Group? then form[key].fields else map[]
  }

  /** Position of the first `.` at or after `i`, or `|s|`: the search
      behind `name.includes(".")` and `name.split(".")`. */
  function DotFrom(s: string, i: nat): (k: nat)
    requires i <= |s|
    ensures i <= k <= |s|
    ensures forall j :: i <= j < k ==> s[j] != '.'
    ensures k < |s| ==> s[k] == '.'
    decreases |s| - i
  {
    if i == |s| || s[i] == '.' then i else DotFrom(s, i + 1)
  }

  /** `name.includes(".")`. */
  predicate Dotted(name: string) {
    DotFrom(name, 0) < |name|
  }

  /** The first two components of `name.split(".")`: the nested object and
      the field inside it. */
  function SplitName(name: string): (parts: (string, string))
    requires Dotted(name)
    ensures !Dotted(parts.0) && !Dotted(parts.1)
    ensures |parts.0| < |name|
    ensures name == parts.0 + "." + name[|parts.0| + 1..]
    ensures parts.1 <= name[|parts.0| + 1..]
    ensures |parts.0| + 1 + |parts.1| == |name| || name[|parts.0| + 1 + |parts.1|] == '.'
  {
    var i := DotFrom(name, 0);
    var rest := name[i + 1..];
    var j := DotFrom(rest, 0);
    assert DotFrom(name[..i], 0) == i by {
      NoDotBefore(name[..i], 0);
    }
    assert DotFrom(rest[..j], 0) == j by {
      NoDotBefore(rest[..j], 0);
    }
    (name[..i], rest[..j])
  }

  /** Text without a dot from `i` on is searched to its end. */
  lemma {:induction false} NoDotBefore(s: string, i: nat)
    requires i <= |s|
    requires forall j :: i <= j < |s| ==> s[j] != '.'
    ensures DotFrom(s, i) == |s|
    decreases |s| - i
  {
    if i < |s| {
      NoDotBefore(s, i + 1);
    }
  }

  /** The checkbox that mirrors the permanent address. */
  const SameAddressFlag: string := "isCurrentAddressSame"

  /** `handleTenantChange`. A dotted name `object.field` sets that nested
      field; a checkbox sets its flag and, for `isCurrentAddressSame`,
      updates `addressesSame` and, when checked, copies the permanent
      address into the current one; any other input sets its text. */
  function HandleTenantChange(st: FormState, ev: InputEvent): (r: FormState)
    ensures r.addressesSame != st.addressesSame ==> ev.isCheckbox && ev.name == SameAddressFlag
  {
    if Dotted(ev.name) then
      var (obj, field) := SplitName(ev.name);
      FormState(st.tenant[obj := Group(Members(st.tenant, obj)[field := ev.value])], st.addressesSame)
    else if ev.isCheckbox then
      var flagged := st.tenant[ev.name := Flag(ev.checked)];
      if ev.name != SameAddressFlag then FormState(flagged, st.addressesSame)
      else if ev.checked then
        FormState(flagged["currentAddress" := Group(Members(flagged, "permanentAddress"))], true)
      else FormState(flagged, false)
    else FormState(st.tenant[ev.name := Text(ev.value)], st.addressesSame)
  }

  /** A dotted input name changes that one nested field and nothing else:
      every other key of the form, and every other field of the same
      nested object, keeps its value. */
  lemma DottedNameChangesOnlyThatField(st: FormState, ev: InputEvent)
    requires Dotted(ev.name)
    ensures var (obj, field) := SplitName(ev.name);
      var r := HandleTenantChange(st, ev);
      && r.tenant.Keys == st.tenant.Keys + {obj}
      && (forall k :: k in st.tenant && k != obj ==> r.tenant[k] == st.tenant[k])
      && Members(r.tenant, obj) == Members(st.tenant, obj)[field := ev.value]
      && r.addressesSame == st.addressesSame
  {
  }

  /** Checking "current address is the same" sets `addressesSame` and the
      flag, and makes the current address a copy of the permanent one;
      unchecking it clears `addressesSame` and leaves both addresses. */
  lemma SameAddressCopiesPermanent(st: FormState, checked: bool, value: string)
    ensures var r := HandleTenantChange(st, InputEvent(SameAddressFlag, value, true, checked));
      && r.addressesSame == checked
      && SameAddressFlag in r.tenant && r.tenant[SameAddressFlag] == Flag(checked)
      && (checked ==> Members(r.tenant, "currentAddress") == Members(st.tenant, "permanentAddress"))
      && (!checked ==> Members(r.tenant, "currentAddress") == Members(st.tenant, "currentAddress"))
      && Members(r.tenant, "permanentAddress") == Members(st.tenant, "permanentAddress")
  {
    SameAddressFlagUndotted();
  }

  /** The checkbox name has no dot, so it is not taken for a nested field. */
  lemma SameAddressFlagUndotted()
    ensures !Dotted(SameAddressFlag)
  {
    assert DotFrom(SameAddressFlag, 0) == 20;
  }

  /** A text input without a dot sets exactly its own key to its text. */
  lemma TextInputSetsItsKey(st: FormState, ev: InputEvent)
    requires !Dotted(ev.name) && !ev.isCheckbox
    ensures var r := HandleTenantChange(st, ev);
      && r.tenant == st.tenant[ev.name := Text(ev.value)]
      && r.addressesSame == st.addressesSame
  {
  }

  // ---------------------------------------------------------------------
  // validateForm

  /** The keys of the `errors` object `validateForm` fills. */
  datatype ErrorKey =
    | TenantName | DateOfBirth | Contact | RoomNumber | MoveInDate | RentAmount
    | PermanentAddressStreet | CurrentAddressStreet | EmergencyName | EmergencyMobile
  {
    /** The part of the form the check belongs to. */
    function Group(): CheckGroup {
      match this
      case PermanentAddressStreet | CurrentAddressStreet => Addresses
      case EmergencyName | EmergencyMobile => Emergency
      case _ => Essentials
    }

    /** The message stored under the key. */
    function Message(): string {
      match this
      case TenantName => "Name is required"
      case DateOfBirth => "Date of birth is required"
      case Contact => "Valid 10-digit mobile number is required"
      case RoomNumber => "Room number must be selected"
      case MoveInDate => "Move-in date is required"
      case RentAmount => "Valid rent amount is required"
      case PermanentAddressStreet => "Permanent address is required"
      case CurrentAddressStreet => "Current address is required"
      case EmergencyName => "Emergency contact name is required"
      case EmergencyMobile => "Valid 10-digit emergency contact number is required"
    }
  }

  /** The three groups of checks, in the order `validateForm` runs them. */
  datatype CheckGroup = Essentials | Addresses | Emergency

  /** What `validateForm` throws when `tenantName` holds something without
      a `trim` method. */
  const TrimTypeError: string := "TypeError: newTenant.tenantName?.trim is not a function"

  /** `/^[0-9]{10}$/.test(s)`: exactly ten ASCII digits. */
  predicate TenDigits(s: string) {
    |s| == 10 && forall i :: 0 <= i < |s| ==> '0' <= s[i] <= '9'
  }

  /** The values `validateForm` reads: six top-level entries of the form
      (`None` is `undefined`) and four texts inside nested objects
      (`None` when the object or the field is missing, or the object is
      not an object). */
  datatype TenantInput = TenantInput(
    tenantName: Option<Field>, dateOfBirth: Option<Field>, contact: Option<Field>,
    roomNumber: Option<Field>, moveInDate: Option<Field>, rentAmount: Option<Field>,
    permanentStreet: Option<string>, currentStreet: Option<string>,
    emergencyName: Option<string>, emergencyMobile: Option<string>)

  /** `form[key]`. */
  function Entry(form: Form, key: string): Option<Field> {
    if key in form then Some(form[key]) else None
  }

  /** `form[outer]?.[inner]`, when it is text. */
  function Nested(form: Form, outer: string, inner: string): Option<string> {
    if inner in Members(form, outer) then Some(Members(form, outer)[inner]) else None
  }

  /** The reads `validateForm` makes of `newTenant`. */
  function Inputs(form: Form): TenantInput {
    TenantInput(
      Entry(form, "tenantName"), Entry(form, "dateOfBirth"), Entry(form, "contact"),
      Entry(form, "roomNumber"), Entry(form, "moveInDate"), Entry(form, "rentAmount"),
      Nested(form, "permanentAddress", "street"), Nested(form, "currentAddress", "street"),
      Nested(form, "emergencyContact", "name"), Nested(form, "emergencyContact", "mobile"))
  }

  /** The value is truthy in JavaScript. */
  predicate Present(v: Option<Field>) {
    v.Some?
    && match v.value
       case Text(s) => s != ""
       case Flag(b) => b
       case Group(_) => true
  }

  /** The value is text with a character that is not whitespace. */
  predicate Filled(v: Option<string>) {
    v.Some? && !IsBlank(v.value)
  }

  /** The value is text of exactly ten digits. */
  predicate TenDigitText(v: Option<string>) {
    v.Some? && TenDigits(v.value)
  }

  /** The value when it is text. */
  function AsText(v: Option<Field>): Option<string> {
    if v.Some? && v.value.Text? then Some(v.value.s) else None
  }

  /** `value <= 0` for the rent value, with JavaScript's coercions (an
      object compares as `NaN`). */
  predicate NotPositive(f: Field) {
    match f
    case Text(s) => LooseAtMostNumber(Str(s), 0)
    case Flag(b) => LooseAtMostNumber(Bool(b), 0)
    case Group(_) => false
  }

  /** `tenantName` holds a checkbox state or a nested object, so
      `tenantName?.trim()` throws. */
  predicate NameThrows(input: TenantInput) {
    input.tenantName.Some? && !input.tenantName.value.Text?
  }

  /** The condition under which `validateForm` records the error `key`. */
  predicate Fails(input: TenantInput, addressesSame: bool, key: ErrorKey) {
    match key
    case TenantName => !Filled(AsText(input.tenantName))
    case DateOfBirth => !Present(input.dateOfBirth)
    case Contact => !TenDigitText(AsText(input.contact))
    case RoomNumber => !Present(input.roomNumber)
    case MoveInDate => !Present(input.moveInDate)
    case RentAmount => !Present(input.rentAmount) || NotPositive(input.rentAmount.value)
    case PermanentAddressStreet => !Filled(input.permanentStreet)
    case CurrentAddressStreet => !addressesSame && !Filled(input.currentStreet)
    case EmergencyName => !Filled(input.emergencyName)
    case EmergencyMobile => !TenDigitText(input.emergencyMobile)
  }

  /** `!x?.trim()` for a value that is text or absent. */
  predicate TrimmedEmpty(x: Option<string>) {
    x.None? || Trim(x.value) == ""
  }

  /** `!x || !/^[0-9]{10}$/.test(x)` for text or `undefined`. */
  predicate NotTenDigits(x: Option<string>) {
    x.None? || x.value == "" || !TenDigits(x.value)
  }

  /** `String(v)` for a form value, the text `RegExp.prototype.test`
      matches: a checkbox state reads as "true" or "false", a nested object
      as "[object Object]". */
  function FieldText(f: Field): string {
    match f
    case Text(s) => s
    case Flag(b) => if b then "true" else "false"
    case Group(_) => "[object Object]"
  }

  /** Truthiness of a form value: non-empty text, a ticked box, any object. */
  predicate FieldTruthy(f: Field) {
    match f
    case Text(s) => s != ""
    case Flag(b) => b
    case Group(_) => true
  }

  /** `!newTenant.contact || !/^[0-9]{10}$/.test(newTenant.contact)`, with
      the value coerced to text the way `test` does. */
  predicate ContactNotTenDigits(x: Option<Field>) {
    x.None? || !FieldTruthy(x.value) || !TenDigits(FieldText(x.value))
  }

  /** The coercion of `test` never lets a value that is not text through:
      "true", "false" and "[object Object]" are not ten digits, so the
      contact check passes exactly for text of ten digits. */
  lemma CoercedContactRefused(x: Option<Field>)
    ensures ContactNotTenDigits(x) <==> !TenDigitText(AsText(x))
  {
    if x.Some? && x.value.Flag? {
      assert |FieldText(x.value)| != 10;
    }
  }

  /** One `if` of `validateForm`: whether the check for `key` records its
      error, computed the way the source writes the condition. */
  method CheckField(input: TenantInput, addressesSame: bool, key: ErrorKey) returns (failed: bool)
    requires !NameThrows(input)
    ensures failed == Fails(input, addressesSame, key)
  {
    match key
    case TenantName =>
      failed := TrimmedEmpty(AsText(input.tenantName));
      TrimmedEmptyIsBlank(AsText(input.tenantName));
    case DateOfBirth => failed := !Present(input.dateOfBirth);
    case Contact =>
      failed := ContactNotTenDigits(input.contact);
      CoercedContactRefused(input.contact);
    case RoomNumber => failed := !Present(input.roomNumber);
    case MoveInDate => failed := !Present(input.moveInDate);
    case RentAmount => failed := !Present(input.rentAmount) || NotPositive(input.rentAmount.value);
    case PermanentAddressStreet =>
      failed := TrimmedEmpty(input.permanentStreet);
      TrimmedEmptyIsBlank(input.permanentStreet);
    case CurrentAddressStreet =>
      failed := !addressesSame && TrimmedEmpty(input.currentStreet);
      TrimmedEmptyIsBlank(input.currentStreet);
    case EmergencyName =>
      failed := TrimmedEmpty(input.emergencyName);
      TrimmedEmptyIsBlank(input.emergencyName);
    case EmergencyMobile => failed := NotTenDigits(input.emergencyMobile);
  }

  /** `validateForm` on the values it reads, `Inputs(newTenant)`: fills the
      `errors` object check by check, then answers whether it stayed empty.
      It records exactly the keys whose condition holds, each with its fixed
      message, and accepts the form iff none holds; when `tenantName` has no
      `trim` method it throws before recording anything. */
  method ValidateTenantForm(input: TenantInput, addressesSame: bool)
    returns (errors: map<ErrorKey, string>, valid: Result<bool, string>)
    ensures NameThrows(input) ==> errors == map[] && valid == Failure(TrimTypeError)
    ensures !NameThrows(input) ==> forall k :: k in errors <==> Fails(input, addressesSame, k)
    ensures Messaged(errors)
    ensures !NameThrows(input) ==> valid.Success? && (valid.value <==> forall k :: !Fails(input, addressesSame, k))
  {
    errors := map[];
    if NameThrows(input) {
      return errors, Failure(TrimTypeError);
    }
    errors := CheckEssentials(input, addressesSame, errors);
    errors := CheckAddresses(input, addressesSame, errors);
    errors := CheckEmergencyContact(input, addressesSame, errors);
    if errors != map[] {
      var k :| k in errors;
      assert Fails(input, addressesSame, k);
    }
    valid := Success(errors == map[]);
  }

  /** Every recorded key carries its fixed message. */
  predicate Messaged(errors: map<ErrorKey, string>) {
    forall k :: k in errors ==> errors[k] == k.Message()
  }

  /** One `if` of `validateForm` together with its assignment
      `errors.key = message`. */
  method Record(input: TenantInput, addressesSame: bool, key: ErrorKey, errors: map<ErrorKey, string>)
    returns (r: map<ErrorKey, string>)
    requires !NameThrows(input)
    ensures forall k :: k in r <==> k in errors || (k == key && Fails(input, addressesSame, key))
    ensures forall k :: k in r ==> r[k] == if k == key && Fails(input, addressesSame, key) then key.Message() else errors[k]
  {
    r := errors;
    var failed := CheckField(input, addressesSame, key);
    if failed {
      r := r[key := key.Message()];
    }
  }

  /** The essential-field checks of `validateForm`: name, date of birth,
      contact number, room, move-in date and rent. */
  method CheckEssentials(input: TenantInput, addressesSame: bool, errors: map<ErrorKey, string>)
    returns (r: map<ErrorKey, string>)
    requires !NameThrows(input) && Messaged(errors)
    ensures forall k :: k in r <==> k in errors || (k.Group() == Essentials && Fails(input, addressesSame, k))
    ensures Messaged(r)
  {
    r := Record(input, addressesSame, TenantName, errors);
    r := Record(input, addressesSame, DateOfBirth, r);
    r := Record(input, addressesSame, Contact, r);
    r := Record(input, addressesSame, RoomNumber, r);
    r := Record(input, addressesSame, MoveInDate, r);
    r := Record(input, addressesSame, RentAmount, r);
  }

  /** The address checks of `validateForm`. */
  method CheckAddresses(input: TenantInput, addressesSame: bool, errors: map<ErrorKey, string>)
    returns (r: map<ErrorKey, string>)
    requires !NameThrows(input) && Messaged(errors)
    ensures forall k :: k in r <==> k in errors || (k.Group() == Addresses && Fails(input, addressesSame, k))
    ensures Messaged(r)
  {
    r := Record(input, addressesSame, PermanentAddressStreet, errors);
    r := Record(input, addressesSame, CurrentAddressStreet, r);
  }

  /** The emergency-contact checks of `validateForm`. */
  method CheckEmergencyContact(input: TenantInput, addressesSame: bool, errors: map<ErrorKey, string>)
    returns (r: map<ErrorKey, string>)
    requires !NameThrows(input) && Messaged(errors)
    ensures forall k :: k in r <==> k in errors || (k.Group() == Emergency && Fails(input, addressesSame, k))
    ensures Messaged(r)
  {
    r := Record(input, addressesSame, EmergencyName, errors);
    r := Record(input, addressesSame, EmergencyMobile, r);
  }

  /** `!x?.trim()` holds exactly for missing or blank text. */
  lemma TrimmedEmptyIsBlank(x: Option<string>)
    ensures TrimmedEmpty(x) <==> x.None? || IsBlank(x.value)
  {
    if x.Some? {
      TrimEmptyIffBlank(x.value);
    }
  }

  /** Ticking "current address is the same" waives the current-address
      check whatever the current address holds, and no other check depends
      on `addressesSame`. */
  lemma SameAddressWaivesCurrentAddress(input: TenantInput, addressesSame: bool, k: ErrorKey)
    ensures !Fails(input, true, CurrentAddressStreet)
    ensures k != CurrentAddressStreet ==> (Fails(input, addressesSame, k) <==> Fails(input, true, k))
  {
  }

  /** Ticking the box through the change handler copies the permanent
      street into the current address, so the two address checks then
      agree even if the box is unticked again afterwards. */
  lemma {:induction false} TickedBoxCopiesStreet(st: FormState, value: string)
    ensures var r := HandleTenantChange(st, InputEvent(SameAddressFlag, value, true, true));
      && r.addressesSame
      && Inputs(r.tenant).currentStreet == Inputs(st.tenant).permanentStreet
      && (Fails(Inputs(r.tenant), false, CurrentAddressStreet) <==> Fails(Inputs(st.tenant), false, PermanentAddressStreet))
  {
    SameAddressCopiesPermanent(st, true, value);
  }

  /** A rent typed as the text of an integer is refused exactly when that
      integer is zero or negative. */
  lemma RentOfIntegerText(n: int)
    ensures NotPositive(Text(IntToString(n))) <==> n <= 0
  {
    NumberOfIntegerText(n);
  }

  /** A rent typed as a decimal literal, with or without a fraction or an
      exponent (`1.5`, `0e0`, `-1e2`), is refused exactly when it carries a
      minus sign or its value is zero. */
  lemma RentOfDecimalText(u: string, negative: bool)
    requires UnsignedDecimal(u).Some?
    ensures NotPositive(Text(WithSign(negative, u)))
      <==> negative || UnsignedDecimal(u).value == 0.0
  {
    DecimalAtMostZero(u, negative);
  }

  /** A rent that `Number` reads as `NaN` (`abc`, `12abc`, `1,000`) is not
      refused: every comparison with `NaN` is false. */
  lemma NaNRentPasses(s: string)
    requires StringToNumber(s).None?
    ensures !NotPositive(Text(s))
  {
  }

  // ---------------------------------------------------------------------
  // handleSort

  /** `sortConfig`: the column and the direction, "asc" or "desc". */
  datatype SortConfig = SortConfig(field: string, direction: string)

  /** The initial sort: newest joiners first. */
  const InitialSort: SortConfig := SortConfig("joinDate", "desc")

  /** `handleSort(field)`. */
  function HandleSort(config: SortConfig, field: string): (r: SortConfig)
    ensures r.field == field
    ensures r.direction == "asc" || r.direction == "desc"
  {
    SortConfig(field, if config.field == field && config.direction == "asc" then "desc" else "asc")
  }

  /** The direction becomes "desc" exactly when the clicked column is the
      current one and it was ascending. */
  lemma SortDirectionRule(config: SortConfig, field: string)
    ensures HandleSort(config, field).direction == "desc"
      <==> config.field == field && config.direction == "asc"
  {
  }

  /** Clicking the current column twice restores the configuration. */
  lemma SortTogglesBack(config: SortConfig)
    requires config.direction == "asc" || config.direction == "desc"
    ensures HandleSort(HandleSort(config, config.field), config.field) == config
  {
  }

  /** A new column starts ascending; a second click makes it descending. */
  lemma NewColumnStartsAscending(config: SortConfig, field: string)
    requires config.field != field
    ensures HandleSort(config, field) == SortConfig(field, "asc")
    ensures HandleSort(HandleSort(config, field), field) == SortConfig(field, "desc")
  {
  }

  // ---------------------------------------------------------------------
  // The rooms offered by fetchRooms

  /** The parts of a room record the filter reads. */
  datatype RoomOption = RoomOption(roomNumber: JsValue, availableBeds: int)

  /** The filter predicate: a free bed, or the room of the tenant being
      edited (`keep`), compared with `===`. */
  function Offered(keep: Option<JsValue>): RoomOption -> bool {
    (room: RoomOption) => room.availableBeds > 0 || (keep.Some? && StrictEquals(room.roomNumber, keep.value))
  }

  /** The room kept besides the free ones: the selected tenant's room
      number, only while editing. */
  function KeptRoom(isEditing: bool, selectedRoom: Option<JsValue>): Option<JsValue> {
    if isEditing then selectedRoom else None
  }

  /** The list `fetchRooms` stores: the fetched rooms that pass the filter,
      in their order; nothing when no data came. */
  function AvailableRooms(data: Option<seq<RoomOption>>, isEditing: bool, selectedRoom: Option<JsValue>): (r: seq<RoomOption>)
    ensures data.None? ==> r == []
    ensures data.Some? ==> |r| <= |data.value|
    ensures data.Some? ==> forall room :: room in r ==>
      (room in data.value
       && (room.availableBeds > 0 || (isEditing && selectedRoom.Some? && StrictEquals(room.roomNumber, selectedRoom.value))))
  {
    match data
    case None => []
    case Some(rooms) => Filter(rooms, Offered(KeptRoom(isEditing, selectedRoom)))
  }

  /** A room is offered, as often as it was fetched, exactly when it has a
      free bed or is the edited tenant's room; other rooms are dropped. */
  lemma {:induction false} OfferedRooms(rooms: seq<RoomOption>, isEditing: bool, selectedRoom: Option<JsValue>)
    ensures forall room :: (multiset(AvailableRooms(Some(rooms), isEditing, selectedRoom))[room]
      == if room.availableBeds > 0
            || (isEditing && selectedRoom.Some? && StrictEquals(room.roomNumber, selectedRoom.value))
         then multiset(rooms)[room] else 0)
  {
    FilterCount(rooms, Offered(KeptRoom(isEditing, selectedRoom)));
  }

  /** The offered rooms keep the order in which they were fetched. */
  lemma OfferedInFetchedOrder(rooms: seq<RoomOption>, isEditing: bool, selectedRoom: Option<JsValue>, i: nat, j: nat)
    requires i < j < |rooms|
    requires Offered(KeptRoom(isEditing, selectedRoom))(rooms[i]) && Offered(KeptRoom(isEditing, selectedRoom))(rooms[j])
    ensures var r := AvailableRooms(Some(rooms), isEditing, selectedRoom);
      exists k, l :: 0 <= k < l < |r| && r[k] == rooms[i] && r[l] == rooms[j]
  {
    FilterKeepsOrder(rooms, Offered(KeptRoom(isEditing, selectedRoom)), i, j);
    assert AvailableRooms(Some(rooms), isEditing, selectedRoom) == Filter(rooms, Offered(KeptRoom(isEditing, selectedRoom)));
  }

  /** Outside editing every offered room has a free bed. */
  lemma {:induction false} NotEditingOnlyFreeRooms(rooms: seq<RoomOption>, selectedRoom: Option<JsValue>)
    ensures forall room :: room in AvailableRooms(Some(rooms), false, selectedRoom) ==> room.availableBeds > 0
  {
    OfferedRooms(rooms, false, selectedRoom);
  }

  /** While editing, the tenant's own room stays selectable even when full. */
  lemma {:induction false} EditedTenantRoomKept(rooms: seq<RoomOption>, room: RoomOption)
    requires room in rooms && !room.roomNumber.NaN?
    ensures room in AvailableRooms(Some(rooms), true, Some(room.roomNumber))
  {
    OfferedRooms(rooms, true, Some(room.roomNumber));
    assert multiset(rooms)[room] > 0;
  }
}
