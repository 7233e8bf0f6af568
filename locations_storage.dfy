/** Decoding the saved locations document
    `{"locations":[{"name":…,"latitude":…,"longitude":…,"is_active":…},…]}`
    into the domain model, all or nothing, and the output-size rule of the
    encoder. */
module LocationsStorage {
  import opened Common
  import opened JsonValue
  import opened LocationsModel

  /** One element of the "locations" array, seen through the keys
      "name", "latitude", "longitude" and "is_active". */
  datatype Element = Element(name: Field, latitude: Field, longitude: Field, isActive: Field)

  /** The root document, seen through its "locations" member: an array of
      elements, or anything else (missing, or not an array). */
  datatype Document = NotAnArray | Locations(elems: seq<Element>)

  const NameMax: nat := 31     // char name[32]

  /** `read_location_object`: the place an array element describes. */
  function ReadLocation(e: Element): Option<Location>
  {
    if e.name.JString? && e.latitude.JNumber? && e.longitude.JNumber? && (e.isActive.JBool? || e.isActive.Missing?) then
      Some(Location(Truncate(e.name.s, NameMax), e.latitude.n, e.longitude.n, e.isActive == JBool(true)))
    else None
  }

  /** An element is accepted iff it has a string name, numeric latitude and
      longitude, and an is_active that is a boolean or absent (absent means
      false); the name is cut to 31 characters. */
  lemma ReadLocationSpec(e: Element)
    ensures ReadLocation(e).Some? <==>
              e.name.JString? && e.latitude.JNumber? && e.longitude.JNumber? && (e.isActive.Missing? || e.isActive.JBool?)
    ensures ReadLocation(e).Some? ==>
              && ReadLocation(e).value.name == Truncate(e.name.s, NameMax)
              && |ReadLocation(e).value.name| <= NameMax
              && ReadLocation(e).value.latitude == e.latitude.n
              && ReadLocation(e).value.longitude == e.longitude.n
              && ReadLocation(e).value.isActive == (e.isActive == JBool(true))
  {
  }

  /** Every element read, or None if one of them is rejected. */
  function ReadAll(elems: seq<Element>): (r: Option<seq<Location>>)
    ensures r.Some? <==> forall i :: 0 <= i < |elems| ==> ReadLocation(elems[i]).Some?
    ensures r.Some? ==> |r.value| == |elems|
    ensures r.Some? ==> forall i :: 0 <= i < |elems| ==> r.value[i] == ReadLocation(elems[i]).value
  {
    if |elems| == 0 then Some([])
    else
      var front := ReadAll(elems[..|elems| - 1]);
      var last := ReadLocation(elems[|elems| - 1]);
      assert forall i :: 0 <= i < |elems| - 1 ==> elems[..|elems| - 1][i] == elems[i];
      if front.Some? && last.Some? then Some(front.value + [last.value]) else None
  }

  predicate AnyActive(locs: seq<Location>)
  {
    exists j :: 0 <= j < |locs| && locs[j].isActive
  }

  /** The "only one active" normalisation, place by place in stored order:
      a place stays active only if no earlier place is active. */
  function KeepFirstActive(locs: seq<Location>): (r: seq<Location>)
    ensures |r| == |locs|
  {
    if |locs| == 0 then []
    else
      var front := locs[..|locs| - 1];
      var last := locs[|locs| - 1];
      KeepFirstActive(front) + [last.(isActive := last.isActive && !AnyActive(front))]
  }

  /** Each normalised place is the stored one, active only if it was and no
      earlier place was. */
  lemma {:induction false} KeepFirstActiveAt(locs: seq<Location>, i: nat)
    requires i < |locs|
    ensures KeepFirstActive(locs)[i] == locs[i].(isActive := locs[i].isActive && !AnyActive(locs[..i]))
    decreases |locs|
  {
    var front := locs[..|locs| - 1];
    if i < |locs| - 1 {
      KeepFirstActiveAt(front, i);
      assert front[..i] == locs[..i];
    }
  }

  /** The model `locations_storage_from_json` produces from the array: None
      when it has more than 8 elements or an element is rejected. */
  function Decode(elems: seq<Element>): (r: Option<seq<Location>>)
    ensures r.Some? <==> |elems| <= MaxNumber && ReadAll(elems).Some?
    ensures r.Some? ==> |r.value| == |elems|
  {
    if |elems| > MaxNumber then None
    else match ReadAll(elems)
      case None => None
      case Some(raw) => Some(KeepFirstActive(raw))
  }

  /** The decoded places keep the stored order, names (cut to 31 chars) and
      coordinates; only active flags may be cleared. */
  lemma DecodeKeepsOrder(elems: seq<Element>, i: nat)
    requires Decode(elems).Some? && i < |elems|
    ensures var loc, raw := Decode(elems).value[i], ReadLocation(elems[i]).value;
      loc == raw.(isActive := loc.isActive) && (loc.isActive ==> raw.isActive)
  {
    KeepFirstActiveAt(ReadAll(elems).value, i);
  }

  /** An active place makes every later place see an earlier active one. */
  lemma ActiveBlocksLater(raw: seq<Location>, i: nat, j: nat)
    requires i < j <= |raw| && raw[i].isActive
    ensures AnyActive(raw[..j])
  {
    assert raw[..j][i] == raw[i];
  }

  /** After decoding at most one place is active. */
  lemma DecodeAtMostOneActive(elems: seq<Element>)
    requires Decode(elems).Some?
    ensures AtMostOneActive(Decode(elems).value)
  {
    var raw := ReadAll(elems).value;
    var r := Decode(elems).value;
    forall i, j | 0 <= i < j < |r|
      ensures !(r[i].isActive && r[j].isActive)
    {
      KeepFirstActiveAt(raw, i);
      KeepFirstActiveAt(raw, j);
      if raw[i].isActive {
        ActiveBlocksLater(raw, i, j);
      }
    }
  }

  /** The first stored place marked active is the one that stays active. */
  lemma DecodeKeepsFirstActive(elems: seq<Element>, i: nat)
    requires Decode(elems).Some? && i < |elems|
    requires ReadLocation(elems[i]).value.isActive
    requires forall j :: 0 <= j < i ==> !ReadLocation(elems[j]).value.isActive
    ensures Decode(elems).value[i].isActive
  {
    var raw := ReadAll(elems).value;
    forall j | 0 <= j < i
      ensures !raw[..i][j].isActive
    {
      assert raw[..i][j] == raw[j];
    }
    assert !AnyActive(raw[..i]);
    KeepFirstActiveAt(raw, i);
  }

  /** Extending the raw places by one extends the normalised ones by the
      normalised last place. */
  lemma KeepFirstActiveSnoc(raw: seq<Location>, loc: Location)
    ensures KeepFirstActive(raw + [loc]) ==
              KeepFirstActive(raw) + [loc.(isActive := loc.isActive && !AnyActive(raw))]
  {
    assert (raw + [loc])[..|raw|] == raw;
  }

  /** Reading one more element extends the accepted prefix or rejects it. */
  lemma ReadAllStep(elems: seq<Element>, i: nat)
    requires i < |elems|
    ensures ReadAll(elems[..i + 1]) ==
              if ReadAll(elems[..i]).Some? && ReadLocation(elems[i]).Some?
              then Some(ReadAll(elems[..i]).value + [ReadLocation(elems[i]).value])
              else None
  {
    assert elems[..i + 1][..i] == elems[..i];
  }

  lemma AnyActiveSnoc(raw: seq<Location>, loc: Location)
    ensures AnyActive(raw + [loc]) == (AnyActive(raw) || loc.isActive)
  {
    if AnyActive(raw) {
      var j :| 0 <= j < |raw| && raw[j].isActive;
      assert (raw + [loc])[j] == raw[j];
    }
    assert (raw + [loc])[|raw|] == loc;
  }

  /** One accepted place entering the scratch model: it keeps its active
      flag only if no earlier place was active, then fills slot `count`. */
  method Append(tmp: Model, loc: Location, activeSeen: bool) returns (nowSeen: bool)
    requires tmp.Valid() && tmp.count < MaxNumber
    modifies tmp, tmp.items
    ensures tmp.Valid() && tmp.count == old(tmp.count) + 1
    ensures tmp.items[..tmp.count] == old(tmp.items[..tmp.count]) + [loc.(isActive := loc.isActive && !activeSeen)]
    ensures forall k :: tmp.count <= k < MaxNumber ==> tmp.items[k] == old(tmp.items[k])
    ensures nowSeen == (activeSeen || loc.isActive)
  {
    var l := loc;
    nowSeen := activeSeen;
    if l.isActive {
      if activeSeen {
        l := l.(isActive := false);
      } else {
        nowSeen := true;
      }
    }
    tmp.items[tmp.count] := l;
    tmp.count := tmp.count + 1;
  }

  /** The decoding loop of `locations_storage_from_json`: read the elements
      in order into a fresh zeroed scratch model, stopping at the first one
      past the 8th or the first rejected one, clearing the active flag of
      every active place after the first. */
  method DecodeInto(elems: seq<Element>) returns (ok: bool, tmp: Model)
    ensures fresh(tmp) && fresh(tmp.items) && tmp.Valid()
    ensures ok <==> Decode(elems).Some?
    ensures ok ==> tmp.Contents() == Decode(elems).value
    ensures forall k :: tmp.count <= k < MaxNumber ==> tmp.items[k] == Zeroed
  {
    tmp := new Model();
    var activeSeen := false;
    ghost var raw: seq<Location> := [];
    var i := 0;
    while i < |elems|
      invariant 0 <= i <= |elems| && tmp.Valid() && tmp.count == i
      invariant fresh(tmp) && fresh(tmp.items)
      invariant ReadAll(elems[..i]) == Some(raw) && activeSeen == AnyActive(raw)
      invariant tmp.items[..i] == KeepFirstActive(raw)
      invariant forall k :: i <= k < MaxNumber ==> tmp.items[k] == Zeroed
    {
      if tmp.count >= MaxNumber {
        return false, tmp;
      }
      var loc := ReadLocation(elems[i]);
      ReadAllStep(elems, i);
      if loc.None? {
        return false, tmp;
      }
      KeepFirstActiveSnoc(raw, loc.value);
      AnyActiveSnoc(raw, loc.value);
      activeSeen := Append(tmp, loc.value, activeSeen);
      raw := raw + [loc.value];
      i := i + 1;
    }
    assert elems[..i] == elems;
    return true, tmp;
  }

  /** `locations_storage_from_json`. A null text or model, malformed text or
      a missing / non-array "locations" member fail; otherwise the array is
      decoded into a scratch model that is copied out only when every element
      was accepted, so on failure `out` is untouched. On success the unused
      slots are zeroed. */
  method FromJson(json: Text<Document>, out: Model?) returns (ok: bool)
    requires out != null ==> out.Valid()
    modifies if out != null then {out, out.items} else {}
    ensures out == null || !json.Parsed? || json.root.NotAnArray? ==> !ok
    ensures out != null ==> out.Valid()
    ensures out != null && json.Parsed? && json.root.Locations? ==>
              (ok <==> Decode(json.root.elems).Some?)
    ensures ok ==>
              && out.Contents() == Decode(json.root.elems).value
              && forall k :: out.count <= k < MaxNumber ==> out.items[k] == Zeroed
    ensures out != null && !ok ==> out.count == old(out.count) && out.items[..] == old(out.items[..])
  {
    if out == null || !json.Parsed? {
      return false;
    }
    if json.root.NotAnArray? {
      return false;
    }
    var tmp;
    ok, tmp := DecodeInto(json.root.elems);
    if ok {
      forall k | 0 <= k < MaxNumber {
        out.items[k] := tmp.items[k];
      }
      out.count := tmp.count;
      assert out.Contents() == tmp.Contents();
    }
  }
}
