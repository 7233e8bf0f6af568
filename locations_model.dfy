/** The locations domain model: a fixed array of 8 saved places with a
    count, names unique by exact comparison, and at most one place marked
    active. */
module LocationsModel {
  import opened Common

  const MaxNumber: nat := 8    // LOCATIONS_MODEL_MAX_NUMBER

  /** `location_t`: a name (`char[32]`), two coordinates and the active flag. */
  datatype Location = Location(name: string, latitude: Number, longitude: Number, isActive: bool)

  /** What `memset(…, 0, …)` leaves in a slot. */
  const Zeroed: Location := Location("", Number(0), Number(0), false)

  predicate HasName(items: seq<Location>, name: string)
  {
    exists i :: 0 <= i < |items| && items[i].name == name
  }

  /** No two stored places share a name: what rejecting duplicates in add keeps. */
  predicate UniqueNames(items: seq<Location>)
  {
    forall i, j :: 0 <= i < |items| && 0 <= j < |items| && items[i].name == items[j].name ==> i == j
  }

  predicate AtMostOneActive(items: seq<Location>)
  {
    forall i, j :: 0 <= i < |items| && 0 <= j < |items| && items[i].isActive && items[j].isActive ==> i == j
  }

  /** The index of the first place called `name`, if any. */
  function IndexOfName(items: seq<Location>, name: string): (r: Option<nat>)
    ensures r.Some? ==> r.value < |items| && items[r.value].name == name
    ensures r.Some? ==> forall j :: 0 <= j < r.value ==> items[j].name != name
    ensures r.None? <==> !HasName(items, name)
  {
    if |items| == 0 then None
    else if items[0].name == name then Some(0)
    else match IndexOfName(items[1..], name)
      case None =>
        assert forall j :: 1 <= j < |items| ==> items[j] == items[1..][j - 1];
        None
      case Some(k) =>
        assert items[1..][k] == items[k + 1];
        Some(k + 1)
  }

  /** Every place with its active flag cleared. */
  function ClearActive(items: seq<Location>): (r: seq<Location>)
    ensures |r| == |items|
    ensures forall i :: 0 <= i < |r| ==> r[i] == items[i].(isActive := false)
  {
    if |items| == 0 then [] else [items[0].(isActive := false)] + ClearActive(items[1..])
  }

  /** The stored places after `locations_model_remove(model, name)`, or None
      when the name is missing, empty or not stored: the first match is cut
      out, later places move up one, and if it was the active one no place
      is active afterwards. */
  function AfterRemove(items: seq<Location>, name: Option<string>): (r: Option<seq<Location>>)
    ensures r.Some? <==> name.Some? && name.value != "" && HasName(items, name.value)
    ensures r.Some? ==> |r.value| == |items| - 1
  {
    if name.None? || name.value == "" then None
    else match IndexOfName(items, name.value)
      case None => None
      case Some(i) =>
        var rest := items[..i] + items[i + 1..];
        Some(if items[i].isActive then ClearActive(rest) else rest)
  }

  /** AfterRemove once the first match is known to sit at slot i. */
  lemma AfterRemoveAt(items: seq<Location>, name: string, i: nat)
    requires name != "" && IndexOfName(items, name) == Some(i)
    ensures AfterRemove(items, Some(name)) ==
              Some(var rest := items[..i] + items[i + 1..]; if items[i].isActive then ClearActive(rest) else rest)
  {
  }

  /** Removing the active place leaves no place active. */
  lemma RemoveActiveClearsAll(items: seq<Location>, name: string)
    requires name != "" && HasName(items, name)
    requires items[IndexOfName(items, name).value].isActive
    ensures forall k :: 0 <= k < |AfterRemove(items, Some(name)).value| ==> !AfterRemove(items, Some(name)).value[k].isActive
  {
  }

  /** Removing an inactive place keeps every other place as it was, flags
      included, in the same order. */
  lemma RemoveInactiveKeepsOthers(items: seq<Location>, name: string)
    requires name != "" && HasName(items, name)
    requires !items[IndexOfName(items, name).value].isActive
    ensures var i := IndexOfName(items, name).value;
      AfterRemove(items, Some(name)).value == items[..i] + items[i + 1..]
  {
  }

  /** Cutting one place out keeps names unique and at most one place active. */
  lemma CutKeepsInvariants(items: seq<Location>, i: nat)
    requires i < |items| && UniqueNames(items) && AtMostOneActive(items)
    ensures var rest := items[..i] + items[i + 1..];
      UniqueNames(rest) && AtMostOneActive(rest)
      && forall k :: 0 <= k < |rest| ==> rest[k] == items[if k < i then k else k + 1]
  {
  }

  /** Removal keeps names unique and at most one place active, and with
      unique names the removed name is gone afterwards. */
  lemma RemoveKeepsInvariants(items: seq<Location>, name: string)
    requires name != "" && HasName(items, name)
    requires UniqueNames(items) && AtMostOneActive(items)
    ensures var r := AfterRemove(items, Some(name)).value;
      UniqueNames(r) && AtMostOneActive(r) && !HasName(r, name)
  {
    var i := IndexOfName(items, name).value;
    var rest := items[..i] + items[i + 1..];
    CutKeepsInvariants(items, i);
    var r := AfterRemove(items, Some(name)).value;
    assert forall k :: 0 <= k < |r| ==> r[k].name == rest[k].name;
  }

  /** Appending a place whose name is new keeps names unique; appending an
      inactive one keeps at most one place active. */
  lemma AppendKeepsInvariants(items: seq<Location>, loc: Location)
    requires UniqueNames(items) && AtMostOneActive(items)
    requires !HasName(items, loc.name) && !loc.isActive
    ensures UniqueNames(items + [loc]) && AtMostOneActive(items + [loc])
  {
  }

  /** `locations_model_t`: the item array and the count of slots in use. */
  class Model {
    const items: array<Location>
    var count: nat

    ghost predicate Valid()
      reads this
    {
      items.Length == MaxNumber && count <= MaxNumber
    }

    /** The places in use, in slot order. */
    function Contents(): seq<Location>
      requires Valid()
      reads this, items
    {
      items[..count]
    }

    /** An empty model, every slot zeroed. */
    constructor ()
      ensures Valid() && count == 0 && items[..] == seq(MaxNumber, _ => Zeroed) && fresh(items)
    {
      items := new Location[MaxNumber](_ => Zeroed);
      count := 0;
    }

    /** `locations_model_add`. A missing place, a full model or a name
        already stored is refused with the model unchanged; otherwise the
        place is copied into the next free slot. */
    method Add(loc: Option<Location>) returns (ok: bool)
      requires Valid()
      modifies this, items
      ensures Valid()
      ensures ok <==> loc.Some? && old(count) < MaxNumber && !HasName(old(Contents()), loc.value.name)
      ensures ok ==> count == old(count) + 1 && items[..] == old(items[..])[old(count) := loc.value]
      ensures ok ==> Contents() == old(Contents()) + [loc.value]
      ensures !ok ==> count == old(count) && items[..] == old(items[..])
    {
      if loc.None? {
        return false;
      }
      if count >= MaxNumber {
        return false;
      }
      ok := true;
      var i := 0;
      while i < count
        invariant 0 <= i <= count
        invariant forall j :: 0 <= j < i ==> items[j].name != loc.value.name
      {
        if items[i].name == loc.value.name {
          ok := false;
          break;
        }
        i := i + 1;
      }
      if ok {
        items[count] := loc.value;
        count := count + 1;
      }
    }

    /** The search loop shared by add and remove: the first slot in use
        whose place is called `name`. */
    method FindName(name: string) returns (index: Option<nat>)
      requires Valid()
      ensures index == IndexOfName(Contents(), name)
    {
      var i := 0;
      while i < count
        invariant 0 <= i <= count
        invariant forall j :: 0 <= j < i ==> items[j].name != name
      {
        if items[i].name == name {
          assert Contents()[i] == items[i];
          return Some(i);
        }
        i := i + 1;
      }
      return None;
    }

    /** The shift-left loop of remove: slots index+1 .. count-1 move down one. */
    method ShiftLeft(index: nat)
      requires Valid() && index < count
      modifies items
      ensures forall k :: 0 <= k < index ==> items[k] == old(items[k])
      ensures forall k :: index <= k < count - 1 ==> items[k] == old(items[k + 1])
      ensures forall k :: count - 1 <= k < items.Length ==> items[k] == old(items[k])
    {
      var i := index;
      while i + 1 < count
        invariant index <= i < count
        invariant forall k :: 0 <= k < index ==> items[k] == old(items[k])
        invariant forall k :: index <= k < i ==> items[k] == old(items[k + 1])
        invariant forall k :: i <= k < items.Length ==> items[k] == old(items[k])
      {
        items[i] := items[i + 1];
        i := i + 1;
      }
    }

    /** The flag-clearing loop of remove. */
    method ClearFlags()
      requires Valid()
      modifies items
      ensures items[..count] == ClearActive(old(items[..count]))
      ensures items[count..] == old(items[count..])
    {
      var i := 0;
      while i < count
        invariant 0 <= i <= count
        invariant forall k :: 0 <= k < i ==> items[k] == old(items[k]).(isActive := false)
        invariant forall k :: i <= k < items.Length ==> items[k] == old(items[k])
      {
        items[i] := items[i].(isActive := false);
        i := i + 1;
      }
    }

    /** Cut slot `index` out: shift the later places left, shrink the count
        and zero the vacated slot. */
    method CutAt(index: nat)
      requires Valid() && index < count
      modifies this, items
      ensures Valid() && count == old(count) - 1
      ensures items[..count] == old(items[..count])[..index] + old(items[..count])[index + 1..]
      ensures items[count] == Zeroed
      ensures items[count + 1..] == old(items[..])[count + 1..]
    {
      ShiftLeft(index);
      count := count - 1;
      items[count] := Zeroed;
    }

    /** `locations_model_remove`: cut out the first place called `name`,
        shift the later ones left, zero the vacated last slot and, if the
        removed place was active, clear every flag. A missing, empty or
        unknown name is refused with the model unchanged. */
    method Remove(name: Option<string>) returns (ok: bool)
      requires Valid()
      modifies this, items
      ensures Valid()
      ensures ok <==> AfterRemove(old(Contents()), name).Some?
      ensures ok ==> count == old(count) - 1
      ensures ok ==> Contents() == AfterRemove(old(Contents()), name).value
      ensures ok ==> items[count] == Zeroed && items[count + 1..] == old(items[..])[count + 1..]
      ensures !ok ==> count == old(count) && items[..] == old(items[..])
    {
      if name.None? || name.value == "" {
        return false;
      }
      var found := FindName(name.value);
      if found.None? {
        return false;
      }
      AfterRemoveAt(items[..count], name.value, found.value);
      RemoveAt(found.value);
      return true;
    }

    /** The removal once the place sits at `index`: cut it out and, if it
        was the active one, clear every flag. */
    method RemoveAt(index: nat)
      requires Valid() && index < count
      modifies this, items
      ensures Valid() && count == old(count) - 1
      ensures var rest := old(Contents())[..index] + old(Contents())[index + 1..];
              Contents() == if old(items[index].isActive) then ClearActive(rest) else rest
      ensures items[count] == Zeroed && items[count + 1..] == old(items[..])[count + 1..]
    {
      var removedWasActive := items[index].isActive;
      CutAt(index);
      ghost var cut := items[count..];
      if removedWasActive {
        ClearFlags();
      }
      assert items[count..] == cut;
      assert items[count + 1..] == cut[1..];
    }

    /** `locations_model_get_active`: the lowest slot whose place is active. */
    method GetActive() returns (active: Option<nat>)
      requires Valid()
      ensures active.Some? ==> active.value < count && items[active.value].isActive
      ensures active.Some? ==> forall j :: 0 <= j < active.value ==> !items[j].isActive
      ensures active.None? <==> forall j :: 0 <= j < count ==> !items[j].isActive
    {
      var i := 0;
      while i < count
        invariant 0 <= i <= count
        invariant forall j :: 0 <= j < i ==> !items[j].isActive
      {
        if items[i].isActive {
          return Some(i);
        }
        i := i + 1;
      }
      return None;
    }
  }
}
