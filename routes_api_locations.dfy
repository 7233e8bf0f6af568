// The decisions of the `/api/locations` routes: which status a POST, a
// DELETE or a PUT of the active place answers with, and which list of
// places, if any, each hands to the persistence layer to save.

module RoutesApiLocations {
  import opened Common
  import opened JsonValue
  import opened LocationsModel
  import opened LocationsStorage
  import opened HttpHelpers
  import opened NvsHelpers

  /** `location_t.name` holds 31 chars and a NUL. */
  const NameMax := 31

  const OkBody := "{\"ok\":true}"

  // ---------------------------------------------------------------------
  // Loading the stored places
  // ---------------------------------------------------------------------

  /** `app_locations_load` into a zeroed model: the error it returns and the
      places it leaves. `nvsErr` is what `nvs_load_json` answered
      (NvsHelpers.LoadJsonErr) and `stored` the text it read, as parsed. Any failure leaves the model empty; a success never yields
      more than 8 places or two active ones. */
  function Load(nvsErr: EspErr, stored: Text<Document>): (r: (EspErr, seq<Location>))
    ensures r.0 == Ok <==> nvsErr == Ok && stored.Parsed? && stored.root.Locations? && Decode(stored.root.elems).Some?
    ensures nvsErr != Ok ==> r.0 == nvsErr
    ensures r.0 != Ok ==> r.1 == []
    ensures r.0 == Ok ==> r.1 == Decode(stored.root.elems).value
    ensures |r.1| <= MaxNumber && AtMostOneActive(r.1)
  {
    if nvsErr != Ok then (nvsErr, [])
    else if stored.Parsed? && stored.root.Locations? && Decode(stored.root.elems).Some? then
      DecodeAtMostOneActive(stored.root.elems);
      (Ok, Decode(stored.root.elems).value)
    else (Fail, [])
  }

  /** `app_locations_load`: decodes the stored text into `model` only when
      reading it succeeded; a decode failure is ESP_FAIL. */
  method LoadInto(nvsErr: EspErr, stored: Text<Document>, model: Model) returns (err: EspErr)
    requires model.Valid() && model.count == 0
    modifies model, model.items
    ensures model.Valid()
    ensures err == Load(nvsErr, stored).0 && model.Contents() == Load(nvsErr, stored).1
  {
    if nvsErr != Ok {
      return nvsErr;
    }
    var ok := FromJson(stored, model);
    err := if ok then Ok else Fail;
  }

  /** As written, a "cfg" namespace that was never written fails the
      load with ESP_ERR_NVS_NOT_FOUND from the read-only open, which is
      neither success nor the NOT_FOUND of an empty list: POST answers 500
      "load_failed", and DELETE and PUT answer 500 instead of 404. */
  lemma MissingNamespaceFailsLoad(getErr: EspErr, stored: Text<Document>)
    ensures var l := Load(LoadJsonErr(true, NvsNotFound, getErr), stored);
            l.0 == NvsNotFound && l.0 != NotFound && l.1 == []
  {
  }

  /** With the intended load, that namespace reads as no stored list, so
      POST adds to an empty list and DELETE and PUT answer 404. */
  lemma MissingNamespaceIntendedEmpty(getErr: EspErr, stored: Text<Document>)
    ensures Load(LoadJsonErrIntended(true, NvsNotFound, getErr), stored) == (NotFound, [])
  {
  }

  // ---------------------------------------------------------------------
  // POST /api/locations
  // ---------------------------------------------------------------------

  /** The members of the POST body the route reads. */
  datatype PostBody = PostBody(name: Field, latitude: Field, longitude: Field)

  /** A string name and numeric coordinates are required. */
  predicate WellFormed(b: PostBody)
  {
    b.name.JString? && b.latitude.JNumber? && b.longitude.JNumber?
  }

  /** The place a POST adds: the name cut to 31 chars, never active. */
  function NewLocation(b: PostBody): (loc: Location)
    requires WellFormed(b)
    ensures |loc.name| <= NameMax && loc.name <= b.name.s && !loc.isActive
  {
    Location(Truncate(b.name.s, NameMax), b.latitude.n, b.longitude.n, false)
  }

  /** `api_locations_post`. `bodyRead` is whether the body could be read,
      `doc` the body as parsed, `openErr`/`getErr` the answers of the NVS
      open and read of the stored list, `stored` that list and
      `saveErr` what saving answers. A bad body is 400; a load failure other
      than a missing list is 500; a full list or a name already stored is
      409 with nothing saved; otherwise the list with the new, inactive
      place at its end is saved and the answer is 201, or 500 if saving
      failed. */
  method Post(bodyRead: bool, doc: Text<PostBody>, openErr: EspErr, getErr: EspErr, stored: Text<Document>, saveErr: EspErr)
    returns (resp: Response, saved: Option<seq<Location>>)
    ensures !bodyRead ==> resp == SendErr(400, Some("invalid_body")) && saved.None?
    ensures bodyRead && !doc.Parsed? ==> resp == SendErr(400, Some("invalid_json")) && saved.None?
    ensures bodyRead && doc.Parsed? && !WellFormed(doc.root) ==>
              resp == SendErr(400, Some("missing_fields")) && saved.None?
    ensures bodyRead && doc.Parsed? && WellFormed(doc.root) ==>
              var l := Load(LoadJsonErr(true, openErr, getErr), stored);
              var loc := NewLocation(doc.root);
              if l.0 != Ok && l.0 != NotFound then resp == SendErr(500, Some("load_failed")) && saved.None?
              else if |l.1| >= MaxNumber || HasName(l.1, loc.name) then
                resp == SendErr(409, Some("duplicate_or_full")) && saved.None?
              else
                && saved == Some(l.1 + [loc])
                && resp == if saveErr == Ok then SendJson(201, Some(OkBody)) else SendErr(500, Some("save_failed"))
    ensures saved.Some? ==> |saved.value| <= MaxNumber && AtMostOneActive(saved.value)
  {
    if !bodyRead {
      return SendErr(400, Some("invalid_body")), None;
    }
    if !doc.Parsed? {
      return SendErr(400, Some("invalid_json")), None;
    }
    if !WellFormed(doc.root) {
      return SendErr(400, Some("missing_fields")), None;
    }
    var loc := NewLocation(doc.root);
    var model := new Model();
    var err := LoadInto(LoadJsonErr(true, openErr, getErr), stored, model);
    if err != Ok && err != NotFound {
      return SendErr(500, Some("load_failed")), None;
    }
    ghost var before := model.Contents();
    var added := model.Add(Some(loc));
    if !added {
      return SendErr(409, Some("duplicate_or_full")), None;
    }
    saved := Some(model.Contents());
    AppendKeepsAtMostOneActive(before, loc);
    resp := if saveErr == Ok then SendJson(201, Some(OkBody)) else SendErr(500, Some("save_failed"));
  }

  /** Appending an inactive place keeps at most one place active. */
  lemma AppendKeepsAtMostOneActive(items: seq<Location>, loc: Location)
    requires AtMostOneActive(items) && !loc.isActive
    ensures AtMostOneActive(items + [loc])
  {
    var r := items + [loc];
    forall i, j | 0 <= i < |r| && 0 <= j < |r| && r[i].isActive && r[j].isActive
      ensures i == j
    {
      assert i < |items| && j < |items|;
      assert r[i] == items[i] && r[j] == items[j];
    }
  }

  // ---------------------------------------------------------------------
  // DELETE /api/locations?name=...
  // ---------------------------------------------------------------------

  /** `api_locations_delete`. `queryOk` is whether the query string fitted
      its buffer and `nameParam` the `name` value, None when missing or too
      long. No stored list, or a name not in it (the empty name included),
      is 404 with nothing saved; another load failure is 500; otherwise the
      list without the first place of that name is saved and the answer is
      200, or 500 if saving failed. */
  method Delete(queryOk: bool, nameParam: Option<string>, openErr: EspErr, getErr: EspErr, stored: Text<Document>, saveErr: EspErr)
    returns (resp: Response, saved: Option<seq<Location>>)
    ensures !queryOk ==> resp == SendErr(400, Some("missing_query")) && saved.None?
    ensures queryOk && nameParam.None? ==> resp == SendErr(400, Some("missing_name_param")) && saved.None?
    ensures queryOk && nameParam.Some? ==>
              var l := Load(LoadJsonErr(true, openErr, getErr), stored);
              if l.0 == NotFound then resp == SendErr(404, Some("not_found")) && saved.None?
              else if l.0 != Ok then resp == SendErr(500, Some("load_failed")) && saved.None?
              else if AfterRemove(l.1, nameParam).None? then resp == SendErr(404, Some("not_found")) && saved.None?
              else
                && saved == AfterRemove(l.1, nameParam)
                && resp == if saveErr == Ok then SendJson(200, Some(OkBody)) else SendErr(500, Some("save_failed"))
  {
    if !queryOk {
      return SendErr(400, Some("missing_query")), None;
    }
    if nameParam.None? {
      return SendErr(400, Some("missing_name_param")), None;
    }
    var model := new Model();
    var err := LoadInto(LoadJsonErr(true, openErr, getErr), stored, model);
    if err == NotFound {
      return SendErr(404, Some("not_found")), None;
    }
    if err != Ok {
      return SendErr(500, Some("load_failed")), None;
    }
    var removed := model.Remove(nameParam);
    if !removed {
      return SendErr(404, Some("not_found")), None;
    }
    saved := Some(model.Contents());
    resp := if saveErr == Ok then SendJson(200, Some(OkBody)) else SendErr(500, Some("save_failed"));
  }

  // ---------------------------------------------------------------------
  // PUT /api/locations/active?name=...
  // ---------------------------------------------------------------------

  /** The list after the set-active loop: a place is active exactly when
      its name is `name`; nothing else changes. */
  function Activate(items: seq<Location>, name: string): (r: seq<Location>)
    ensures |r| == |items|
    ensures forall i :: 0 <= i < |r| ==> r[i].(isActive := items[i].isActive) == items[i]
    ensures forall i :: 0 <= i < |r| ==> (r[i].isActive <==> items[i].name == name)
  {
    seq(|items|, i requires 0 <= i < |items| => items[i].(isActive := items[i].name == name))
  }

  /** With unique names, the named place becomes the one active place, and
      it is the first active one; with no place of that name none is
      active. */
  lemma {:induction false} ActivateSelectsNamed(items: seq<Location>, name: string)
    ensures UniqueNames(items) ==> AtMostOneActive(Activate(items, name))
    ensures HasName(items, name) ==>
              var i := IndexOfName(items, name).value;
              && Activate(items, name)[i].isActive
              && forall j :: 0 <= j < i ==> !Activate(items, name)[j].isActive
    ensures !HasName(items, name) ==> forall j :: 0 <= j < |items| ==> !Activate(items, name)[j].isActive
  {
    var r := Activate(items, name);
    if UniqueNames(items) {
      forall i, j | 0 <= i < |r| && 0 <= j < |r| && r[i].isActive && r[j].isActive
        ensures i == j
      {
        assert items[i].name == name == items[j].name;
      }
    }
    if !HasName(items, name) {
      forall j | 0 <= j < |items| ensures !r[j].isActive {
        assert items[j].name != name;
      }
    }
  }

  /** The loop of `api_locations_set_active` over the model in place:
      `found` tells whether some place has the name. */
  method ActivateInModel(model: Model, name: string) returns (found: bool)
    requires model.Valid()
    modifies model.items
    ensures model.Valid()
    ensures found <==> HasName(old(model.Contents()), name)
    ensures model.Contents() == Activate(old(model.Contents()), name)
    ensures model.items[model.count..] == old(model.items[model.count..])
  {
    found := false;
    var i := 0;
    while i < model.count
      invariant i <= model.count
      invariant model.items[..i] == Activate(old(model.items[..i]), name)
      invariant model.items[i..] == old(model.items[i..])
      invariant found <==> HasName(old(model.items[..i]), name)
    {
      ghost var prefix := old(model.items[..i + 1]);
      assert prefix == old(model.items[..i]) + [model.items[i]];
      if model.items[i].name == name {
        model.items[i] := model.items[i].(isActive := true);
        found := true;
      } else {
        model.items[i] := model.items[i].(isActive := false);
      }
      i := i + 1;
    }
  }

  /** `api_locations_set_active`. The query and load failures answer as
      for DELETE; a name no place has is 404 with nothing saved; otherwise
      the list with exactly the places of that name active is saved and
      the answer is 200, or 500 if saving failed. */
  method SetActive(queryOk: bool, nameParam: Option<string>, openErr: EspErr, getErr: EspErr, stored: Text<Document>, saveErr: EspErr)
    returns (resp: Response, saved: Option<seq<Location>>)
    ensures !queryOk ==> resp == SendErr(400, Some("missing_query")) && saved.None?
    ensures queryOk && nameParam.None? ==> resp == SendErr(400, Some("missing_name_param")) && saved.None?
    ensures queryOk && nameParam.Some? ==>
              var l := Load(LoadJsonErr(true, openErr, getErr), stored);
              if l.0 == NotFound then resp == SendErr(404, Some("not_found")) && saved.None?
              else if l.0 != Ok then resp == SendErr(500, Some("load_failed")) && saved.None?
              else if !HasName(l.1, nameParam.value) then resp == SendErr(404, Some("not_found")) && saved.None?
              else
                && saved == Some(Activate(l.1, nameParam.value))
                && resp == if saveErr == Ok then SendJson(200, Some(OkBody)) else SendErr(500, Some("save_failed"))
  {
    if !queryOk {
      return SendErr(400, Some("missing_query")), None;
    }
    if nameParam.None? {
      return SendErr(400, Some("missing_name_param")), None;
    }
    var model := new Model();
    var err := LoadInto(LoadJsonErr(true, openErr, getErr), stored, model);
    if err == NotFound {
      return SendErr(404, Some("not_found")), None;
    }
    if err != Ok {
      return SendErr(500, Some("load_failed")), None;
    }
    var found := ActivateInModel(model, nameParam.value);
    if !found {
      return SendErr(404, Some("not_found")), None;
    }
    saved := Some(model.Contents());
    resp := if saveErr == Ok then SendJson(200, Some(OkBody)) else SendErr(500, Some("save_failed"));
  }
}
