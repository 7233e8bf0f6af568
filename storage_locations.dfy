/** The id-keyed location list kept in NVS: the list is a JSON array under
    key "locations" of namespace "app", and the active location's id is a
    string under key "active_loc_id" of namespace "storage_locations". The
    stored array is modelled by what parsing it yields, each element seen
    through the keys the code looks up. NVS and printer failures are inputs
    of each operation. */
module StorageLocations {
  import opened Common
  import opened JsonValue

  const IdMax: nat := 15          // char id[16]
  const NameMax: nat := 47        // char name[48]
  const TimezoneMax: nat := 47    // char timezone[48]
  const ActiveIdBuffer: nat := 64 // char active[64] in delete_by_id

  /** `location_t` of the store. Coordinates stay opaque. */
  datatype StoredLocation = StoredLocation(id: string, name: string, lat: Number, lon: Number, timezone: string, country: string)

  /** The zero-filled `location_t`. */
  const Blank: StoredLocation := StoredLocation("", "", Number(0), Number(0), "", "")

  /** An array element: something other than an object, or an object seen
      through its "id", "name", "lat", "lon", "timezone" and "country" keys. */
  datatype Entry = NonObject | Obj(id: Field, name: Field, lat: Field, lon: Field, timezone: Field, country: Field)

  /** What the "locations" key holds: nothing, text that does not parse to
      an array, or an array. */
  datatype Stored = Absent | Unreadable | Array(entries: seq<Entry>)

  /** How the environment answers during one operation: `nvs_open`, reading
      a present key (an error other than "not found"), printing the array,
      `nvs_set_str`, `nvs_commit` and erasing a present key. */
  datatype Io = Io(openErr: EspErr, readErr: EspErr, printOk: bool, setErr: EspErr, commitErr: EspErr, eraseErr: EspErr)

  /** The error a print-then-`nvs_set_str`-then-`nvs_commit` sequence reports. */
  function SaveErr(io: Io): (e: EspErr)
    ensures e == Ok <==> io.printOk && io.setErr == Ok && io.commitErr == Ok
    ensures !io.printOk ==> e == NoMem
  {
    if !io.printOk then NoMem else if io.setErr != Ok then io.setErr else io.commitErr
  }

  /** Whether that sequence got as far as writing the value. */
  predicate Written(io: Io)
  {
    io.printOk && io.setErr == Ok
  }

  predicate HasId(e: Entry, id: string)
  {
    e.Obj? && e.id == JString(id)
  }

  /** The first element that is an object with a string "id" equal to `id`. */
  function IndexOfId(entries: seq<Entry>, id: string): (r: Option<nat>)
    ensures r.Some? ==> r.value < |entries| && HasId(entries[r.value], id)
    ensures r.Some? ==> forall j :: 0 <= j < r.value ==> !HasId(entries[j], id)
    ensures r.None? <==> forall j :: 0 <= j < |entries| ==> !HasId(entries[j], id)
  {
    if |entries| == 0 then None
    else if HasId(entries[0], id) then Some(0)
    else match IndexOfId(entries[1..], id)
      case None =>
        assert forall j :: 1 <= j < |entries| ==> entries[j] == entries[1..][j - 1];
        None
      case Some(k) =>
        assert entries[1..][k] == entries[k + 1];
        Some(k + 1)
  }

  /** No two objects share a string id. */
  predicate UniqueIds(entries: seq<Entry>)
  {
    forall i, j ::
      (0 <= i < |entries| && 0 <= j < |entries| && entries[i].Obj? && entries[j].Obj?
       && entries[i].id.JString? && entries[i].id == entries[j].id) ==> i == j
  }

  /** The object `storage_locations_add` appends for a new id. */
  function NewEntry(loc: StoredLocation): Entry
  {
    Obj(JString(loc.id), JString(loc.name), JNumber(loc.lat), JNumber(loc.lon), JString(loc.timezone), JString(loc.country))
  }

  /** `cJSON_ReplaceItemInObjectCaseSensitive`: only a member that exists is replaced. */
  function Replace(f: Field, v: Field): Field
  {
    if f.Missing? then f else v
  }

  /** The update of an existing entry: name, lat, lon, timezone and country
      are replaced where present; the id stays. */
  function UpdateEntry(e: Entry, loc: StoredLocation): (u: Entry)
    requires e.Obj?
    ensures u.Obj? && u.id == e.id
  {
    e.(name := Replace(e.name, JString(loc.name)), lat := Replace(e.lat, JNumber(loc.lat)),
       lon := Replace(e.lon, JNumber(loc.lon)), timezone := Replace(e.timezone, JString(loc.timezone)),
       country := Replace(e.country, JString(loc.country)))
  }

  /** The list `storage_locations_add` saves: the first entry with the id
      updated in place, else the new entry appended, or None (INVALID_SIZE)
      when a new entry would not fit `maxLocations`. */
  function Upsert(entries: seq<Entry>, loc: StoredLocation, maxLocations: int): Option<seq<Entry>>
  {
    match IndexOfId(entries, loc.id)
      case Some(i) => Some(entries[i := UpdateEntry(entries[i], loc)])
      case None => if |entries| >= maxLocations then None else Some(entries + [NewEntry(loc)])
  }

  /** An existing id is updated in place: same length, same position, no
      cap check; a new id goes at the end, unless the cap is reached. */
  lemma UpsertShape(entries: seq<Entry>, loc: StoredLocation, maxLocations: int)
    ensures IndexOfId(entries, loc.id).Some? ==>
              && Upsert(entries, loc, maxLocations).Some?
              && |Upsert(entries, loc, maxLocations).value| == |entries|
              && IndexOfId(Upsert(entries, loc, maxLocations).value, loc.id) == IndexOfId(entries, loc.id)
    ensures IndexOfId(entries, loc.id).None? ==>
              (Upsert(entries, loc, maxLocations).None? <==> |entries| >= maxLocations)
    ensures IndexOfId(entries, loc.id).None? && |entries| < maxLocations ==>
              Upsert(entries, loc, maxLocations).value == entries + [NewEntry(loc)]
              && IndexOfId(Upsert(entries, loc, maxLocations).value, loc.id) == Some(|entries|)
  {
    match IndexOfId(entries, loc.id)
      case Some(i) =>
        var r := entries[i := UpdateEntry(entries[i], loc)];
        assert forall j :: 0 <= j < |r| && j != i ==> r[j] == entries[j];
        assert HasId(r[i], loc.id);
      case None =>
        if |entries| < maxLocations {
          var r := entries + [NewEntry(loc)];
          assert forall j :: 0 <= j < |entries| ==> r[j] == entries[j];
          assert HasId(r[|entries|], loc.id);
        }
  }

  /** Upserting keeps ids unique, and never grows a list that is at the cap. */
  lemma UpsertKeepsUniqueIds(entries: seq<Entry>, loc: StoredLocation, maxLocations: int)
    requires UniqueIds(entries) && Upsert(entries, loc, maxLocations).Some?
    ensures UniqueIds(Upsert(entries, loc, maxLocations).value)
    ensures |Upsert(entries, loc, maxLocations).value| <= if |entries| < maxLocations then maxLocations else |entries|
  {
    var r := Upsert(entries, loc, maxLocations).value;
    match IndexOfId(entries, loc.id)
      case Some(i) =>
        assert forall j :: 0 <= j < |r| ==> r[j].Obj? == entries[j].Obj? && (r[j].Obj? ==> r[j].id == entries[j].id);
      case None =>
        assert forall a :: 0 <= a < |entries| ==> !HasId(entries[a], loc.id);
        assert forall a :: 0 <= a < |entries| ==> r[a] == entries[a];
  }

  /** The list without its element at `i`, order kept (`cJSON_DeleteItemFromArray`). */
  function RemoveAt(entries: seq<Entry>, i: nat): (r: seq<Entry>)
    requires i < |entries|
    ensures |r| == |entries| - 1
    ensures forall j :: 0 <= j < |r| ==> r[j] == entries[if j < i then j else j + 1]
  {
    entries[..i] + entries[i + 1..]
  }

  /** With unique ids, deleting the first match leaves no entry with that id. */
  lemma RemoveFirstMatchLeavesNone(entries: seq<Entry>, id: string)
    requires UniqueIds(entries) && IndexOfId(entries, id).Some?
    ensures IndexOfId(RemoveAt(entries, IndexOfId(entries, id).value), id).None?
    ensures UniqueIds(RemoveAt(entries, IndexOfId(entries, id).value))
  {
    var i := IndexOfId(entries, id).value;
    var r := RemoveAt(entries, i);
    forall j | 0 <= j < |r|
      ensures !HasId(r[j], id)
    {
      var k := if j < i then j else j + 1;
      assert r[j] == entries[k] && k != i;
    }
  }

  /** What get_by_id / get_first copy out of a matching object: the zeroed
      record with id cut to 15 chars, name and timezone to 47 when they are
      strings, lat/lon when they are numbers; country is never read. */
  function ReadStored(e: Entry): StoredLocation
    requires e.Obj? && e.id.JString?
  {
    Blank.(id := Truncate(e.id.s, IdMax),
           name := if e.name.JString? then Truncate(e.name.s, NameMax) else "",
           lat := if e.lat.JNumber? then e.lat.n else Number(0),
           lon := if e.lon.JNumber? then e.lon.n else Number(0),
           timezone := if e.timezone.JString? then Truncate(e.timezone.s, TimezoneMax) else "")
  }

  /** Adding a location and reading it back by id returns it with id, name
      and timezone bounded and the country dropped. */
  lemma AddedReadsBack(loc: StoredLocation)
    ensures ReadStored(NewEntry(loc)) ==
              loc.(id := Truncate(loc.id, IdMax), name := Truncate(loc.name, NameMax),
                   timezone := Truncate(loc.timezone, TimezoneMax), country := "")
  {
  }

  /** The id search loop shared by add, delete_by_id, remove_by_id and
      get_by_id; -1 when nothing matches. */
  method FindId(entries: seq<Entry>, id: string) returns (index: int)
    ensures index == -1 <==> IndexOfId(entries, id).None?
    ensures index != -1 ==> 0 <= index && IndexOfId(entries, id) == Some(index)
  {
    var i := 0;
    while i < |entries|
      invariant 0 <= i <= |entries|
      invariant forall j :: 0 <= j < i ==> !HasId(entries[j], id)
    {
      var item := entries[i];
      if !item.Obj? {
        i := i + 1;
        continue;
      }
      if item.id.JString? && item.id.s == id {
        return i;
      }
      i := i + 1;
    }
    return -1;
  }

  /** The error `storage_locations_get_by_id` answers for `id` over the
      stored list: the open or read error first, then FAIL for a value that
      is not an array, NOT_FOUND for a missing list or an unknown id. */
  function GetByIdErr(locations: Stored, id: string, io: Io): (e: EspErr)
    ensures e == Ok <==> && io.openErr == Ok && (io.readErr == Ok || locations == Absent)
                         && locations.Array? && IndexOfId(locations.entries, id).Some?
    ensures e == Fail ==> locations == Unreadable || Fail in {io.openErr, io.readErr}
  {
    if io.openErr != Ok then io.openErr
    else if io.readErr != Ok && locations != Absent then io.readErr
    else match locations
      case Unreadable => Fail
      case Absent => NotFound
      case Array(entries) => if IndexOfId(entries, id).Some? then Ok else NotFound
  }

  class LocationStore {
    var locations: Stored           // "app" / "locations"
    var activeId: Option<string>    // "storage_locations" / "active_loc_id"

    constructor ()
      ensures locations == Absent && activeId == None
    {
      locations := Absent;
      activeId := None;
    }

    /** Print the array and write it back with set + commit. */
    method Save(entries: seq<Entry>, io: Io) returns (err: EspErr)
      modifies this`locations
      ensures err == SaveErr(io)
      ensures locations == if Written(io) then Array(entries) else old(locations)
    {
      if !io.printOk {
        return NoMem;
      }
      if io.setErr != Ok {
        return io.setErr;
      }
      locations := Array(entries);
      return io.commitErr;
    }

    /** `storage_locations_add`: after open and read, a missing or unreadable
        list counts as empty; an entry with the same id is updated in place
        (no cap check), otherwise a new entry is appended unless
        `maxLocations` entries are already there (INVALID_SIZE). The active
        id is never touched. */
    method Add(loc: StoredLocation, maxLocations: int, io: Io) returns (err: EspErr)
      modifies this`locations
      ensures io.openErr != Ok ==> err == io.openErr && locations == old(locations)
      ensures io.openErr == Ok && io.readErr != Ok && old(locations) != Absent ==>
                err == io.readErr && locations == old(locations)
      ensures io.openErr == Ok && (io.readErr == Ok || old(locations) == Absent) ==>
                var base := if old(locations).Array? then old(locations).entries else [];
                var r := Upsert(base, loc, maxLocations);
                && (r.None? ==> err == InvalidSize && locations == old(locations))
                && (r.Some? ==> err == SaveErr(io) && locations == if Written(io) then Array(r.value) else old(locations))
    {
      if io.openErr != Ok {
        return io.openErr;
      }
      if io.readErr != Ok && locations != Absent {
        return io.readErr;
      }
      var entries := if locations.Array? then locations.entries else [];
      var i := FindId(entries, loc.id);
      if i != -1 {
        err := Save(entries[i := UpdateEntry(entries[i], loc)], io);
        return;
      }
      if |entries| >= maxLocations {
        return InvalidSize;
      }
      err := Save(entries + [NewEntry(loc)], io);
    }

    /** The list as `storage_locations_get_all_json` hands it on: an absent
        key reads as the empty array. */
    method GetAll(io: Io) returns (err: EspErr, list: Stored)
      ensures io.openErr != Ok ==> err == io.openErr
      ensures io.openErr == Ok && io.readErr != Ok && locations != Absent ==> err == io.readErr
      ensures io.openErr == Ok && (io.readErr == Ok || locations == Absent) ==>
                err == Ok && list == if locations == Absent then Array([]) else locations
    {
      if io.openErr != Ok {
        return io.openErr, Absent;
      }
      if io.readErr != Ok && locations != Absent {
        return io.readErr, Absent;
      }
      if locations == Absent {
        return Ok, Array([]);
      }
      return Ok, locations;
    }

    /** `storage_locations_get_active_id` into a buffer of `outLen` chars. */
    method GetActiveId(outPresent: bool, outLen: nat, io: Io) returns (err: EspErr, id: Option<string>)
      ensures !outPresent || outLen == 0 ==> err == InvalidArg && id.None?
      ensures outPresent && outLen > 0 ==>
                && (io.openErr != Ok ==> err == io.openErr && id.None?)
                && (io.openErr == Ok && activeId.None? ==> err == NvsNotFound && id.None?)
                && (io.openErr == Ok && activeId.Some? && io.readErr != Ok ==> err == io.readErr && id.None?)
                && (io.openErr == Ok && activeId.Some? && io.readErr == Ok ==>
                      if |activeId.value| + 1 > outLen then err == NvsInvalidLength && id.None?
                      else err == Ok && id == activeId)
    {
      if !outPresent || outLen == 0 {
        return InvalidArg, None;
      }
      if io.openErr != Ok {
        return io.openErr, None;
      }
      if activeId.None? {
        return NvsNotFound, None;
      }
      if io.readErr != Ok {
        return io.readErr, None;
      }
      var needed := |activeId.value| + 1;
      if needed > outLen {
        return NvsInvalidLength, None;
      }
      return Ok, activeId;
    }

    /** `storage_locations_clear_active_id`: erase then commit. */
    method ClearActiveId(io: Io) returns (err: EspErr)
      modifies this`activeId
      ensures io.openErr != Ok ==> err == io.openErr && activeId == old(activeId)
      ensures io.openErr == Ok && old(activeId).None? ==> err == NvsNotFound && activeId.None?
      ensures io.openErr == Ok && old(activeId).Some? ==>
                if io.eraseErr != Ok then err == io.eraseErr && activeId == old(activeId)
                else err == io.commitErr && activeId.None?
    {
      if io.openErr != Ok {
        return io.openErr;
      }
      if activeId.None? {
        return NvsNotFound;
      }
      if io.eraseErr != Ok {
        return io.eraseErr;
      }
      activeId := None;
      return io.commitErr;
    }

    /** `storage_locations_delete_by_id`: remove the first entry with the id.
        An empty id is INVALID_ARG, a missing list or id NOT_FOUND, an
        unreadable list INVALID_STATE. Once the shortened list has been
        printed, the active id is cleared when it equals `id` (read through a
        64-char buffer), whether or not writing the list succeeded. */
    method DeleteById(id: Option<string>, io: Io) returns (err: EspErr)
      modifies this
      ensures id.None? || id.value == "" ==> err == InvalidArg && locations == old(locations) && activeId == old(activeId)
      ensures id.Some? && id.value != "" && io.openErr != Ok ==>
                err == io.openErr && locations == old(locations) && activeId == old(activeId)
      ensures id.Some? && id.value != "" && io.openErr == Ok && io.readErr != Ok && old(locations) != Absent ==>
                err == io.readErr && locations == old(locations) && activeId == old(activeId)
      ensures id.Some? && id.value != "" && io.openErr == Ok && (io.readErr == Ok || old(locations) == Absent) ==>
                match old(locations)
                  case Absent => err == NotFound && locations == old(locations) && activeId == old(activeId)
                  case Unreadable => err == InvalidState && locations == old(locations) && activeId == old(activeId)
                  case Array(entries) =>
                    match IndexOfId(entries, id.value)
                      case None => err == NotFound && locations == old(locations) && activeId == old(activeId)
                      case Some(i) =>
                        && err == SaveErr(io)
                        && locations == (if Written(io) then Array(RemoveAt(entries, i)) else old(locations))
                        && activeId == (if io.printOk && old(activeId) == Some(id.value) && |id.value| + 1 <= ActiveIdBuffer
                                          && io.eraseErr == Ok
                                        then None else old(activeId))
    {
      if id.None? || id.value == "" {
        return InvalidArg;
      }
      if io.openErr != Ok {
        return io.openErr;
      }
      if io.readErr != Ok && locations != Absent {
        return io.readErr;
      }
      if locations == Absent {
        return NotFound;
      }
      if locations == Unreadable {
        return InvalidState;
      }
      var entries := locations.entries;
      var removedIndex := FindId(entries, id.value);
      if removedIndex < 0 {
        return NotFound;
      }
      err := Save(RemoveAt(entries, removedIndex), io);
      if !io.printOk {
        return;
      }
      var e, active := GetActiveId(true, ActiveIdBuffer, io);
      if e == Ok && active == Some(id.value) {
        var ignored := ClearActiveId(io);
      }
    }

    /** `storage_locations_remove_by_id`: like delete_by_id, except that an
        unreadable list is ESP_FAIL and the active id is never touched. */
    method RemoveById(id: Option<string>, io: Io) returns (err: EspErr)
      modifies this`locations
      ensures id.None? || id.value == "" ==> err == InvalidArg && locations == old(locations)
      ensures id.Some? && id.value != "" && io.openErr != Ok ==> err == io.openErr && locations == old(locations)
      ensures id.Some? && id.value != "" && io.openErr == Ok && io.readErr != Ok && old(locations) != Absent ==>
                err == io.readErr && locations == old(locations)
      ensures id.Some? && id.value != "" && io.openErr == Ok && (io.readErr == Ok || old(locations) == Absent) ==>
                match old(locations)
                  case Absent => err == NotFound && locations == old(locations)
                  case Unreadable => err == Fail && locations == old(locations)
                  case Array(entries) =>
                    match IndexOfId(entries, id.value)
                      case None => err == NotFound && locations == old(locations)
                      case Some(i) =>
                        err == SaveErr(io) && locations == (if Written(io) then Array(RemoveAt(entries, i)) else old(locations))
    {
      if id.None? || id.value == "" {
        return InvalidArg;
      }
      if io.openErr != Ok {
        return io.openErr;
      }
      if io.readErr != Ok && locations != Absent {
        return io.readErr;
      }
      if locations == Absent {
        return NotFound;
      }
      if locations == Unreadable {
        return Fail;
      }
      var entries := locations.entries;
      var i := FindId(entries, id.value);
      if i < 0 {
        return NotFound;
      }
      err := Save(RemoveAt(entries, i), io);
    }

    /** `storage_locations_clear_all`: erasing a key that is already gone
        counts as success; either way the result is the commit's. */
    method ClearAll(io: Io) returns (err: EspErr)
      modifies this`locations
      ensures io.openErr != Ok ==> err == io.openErr && locations == old(locations)
      ensures io.openErr == Ok && old(locations) == Absent ==> err == io.commitErr && locations == Absent
      ensures io.openErr == Ok && old(locations) != Absent ==>
                if io.eraseErr == Ok then err == io.commitErr && locations == Absent
                else if io.eraseErr == NvsNotFound then err == io.commitErr && locations == old(locations)
                else err == io.eraseErr && locations == old(locations)
    {
      if io.openErr != Ok {
        return io.openErr;
      }
      var eraseErr := if locations == Absent then NvsNotFound else io.eraseErr;
      if eraseErr == Ok {
        locations := Absent;
      }
      if eraseErr == Ok || eraseErr == NvsNotFound {
        return io.commitErr;
      }
      return eraseErr;
    }

    /** `storage_locations_get_by_id`: the first object whose string id
        equals `id`, read by ReadStored; NOT_FOUND when none does. */
    method GetById(id: Option<string>, outPresent: bool, io: Io) returns (err: EspErr, loc: Option<StoredLocation>)
      ensures id.None? || !outPresent ==> err == InvalidArg && loc.None?
      ensures id.Some? && outPresent && io.openErr != Ok ==> err == io.openErr && loc.None?
      ensures id.Some? && outPresent && io.openErr == Ok && io.readErr != Ok && locations != Absent ==>
                err == io.readErr && loc.None?
      ensures id.Some? && outPresent && io.openErr == Ok && (io.readErr == Ok || locations == Absent) ==>
                match locations
                  case Unreadable => err == Fail && loc.None?
                  case Absent => err == NotFound && loc.None?
                  case Array(entries) =>
                    match IndexOfId(entries, id.value)
                      case None => err == NotFound && loc.None?
                      case Some(i) => err == Ok && loc == Some(ReadStored(entries[i]))
      ensures id.Some? && outPresent ==> err == GetByIdErr(locations, id.value, io)
    {
      if id.None? || !outPresent {
        return InvalidArg, None;
      }
      var list;
      err, list := GetAll(io);
      if err != Ok {
        return err, None;
      }
      if !list.Array? {
        return Fail, None;
      }
      var i := FindId(list.entries, id.value);
      if i < 0 {
        return NotFound, None;
      }
      return Ok, Some(ReadStored(list.entries[i]));
    }

    /** `storage_locations_get_first`: an unreadable or empty list is
        NOT_FOUND; a first element that is not an object, or has no string
        id, is ESP_FAIL. */
    method GetFirst(outPresent: bool, io: Io) returns (err: EspErr, loc: Option<StoredLocation>)
      ensures !outPresent ==> err == InvalidArg && loc.None?
      ensures outPresent && io.openErr != Ok ==> err == io.openErr && loc.None?
      ensures outPresent && io.openErr == Ok && io.readErr != Ok && locations != Absent ==>
                err == io.readErr && loc.None?
      ensures outPresent && io.openErr == Ok && (io.readErr == Ok || locations == Absent) ==>
                if !locations.Array? || |locations.entries| == 0 then err == NotFound && loc.None?
                else if !locations.entries[0].Obj? || !locations.entries[0].id.JString? then err == Fail && loc.None?
                else err == Ok && loc == Some(ReadStored(locations.entries[0]))
    {
      if !outPresent {
        return InvalidArg, None;
      }
      var list;
      err, list := GetAll(io);
      if err != Ok {
        return err, None;
      }
      if !list.Array? || |list.entries| <= 0 {
        return NotFound, None;
      }
      var first := list.entries[0];
      if !first.Obj? {
        return Fail, None;
      }
      if !first.id.JString? {
        return Fail, None;
      }
      return Ok, Some(ReadStored(first));
    }

    /** `storage_locations_set_active_id`: only an id that get_by_id finds
        is stored; get_by_id's error is returned as is, then the first
        failing open, set or commit. */
    method SetActiveId(id: Option<string>, io: Io) returns (err: EspErr)
      modifies this`activeId
      ensures id.None? || id.value == "" ==> err == InvalidArg && activeId == old(activeId)
      ensures id.Some? && id.value != "" ==>
                var found := locations.Array? && IndexOfId(locations.entries, id.value).Some?;
                && (activeId == if io.openErr == Ok && (io.readErr == Ok || locations == Absent) && found && io.setErr == Ok
                                then id else old(activeId))
                && (err == Ok <==> io.openErr == Ok && (io.readErr == Ok || locations == Absent) && found
                                   && io.setErr == Ok && io.commitErr == Ok)
      ensures id.Some? && id.value != "" ==>
                var lookup := GetByIdErr(locations, id.value, io);
                err == if lookup != Ok then lookup
                       else if io.openErr != Ok then io.openErr
                       else if io.setErr != Ok then io.setErr
                       else io.commitErr
    {
      if id.None? || id.value == "" {
        return InvalidArg;
      }
      var e, tmp := GetById(id, true, io);
      if e != Ok {
        return e;
      }
      if io.openErr != Ok {
        return io.openErr;
      }
      if io.setErr != Ok {
        return io.setErr;
      }
      activeId := id;
      return io.commitErr;
    }
  }
}
