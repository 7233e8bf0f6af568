/** The second copy of the locations library (`lib/kcc_domain`), whose
    `locations_model_add` guards both pointers and caps the model at
    LOCATIONS_MAX. Its struct layout and algorithm are those of the domain
    library, so it is modelled over the same `Model` class. */
module KccLocationsModel {
  import opened Common
  import opened LocationsModel

  const LocationsMax: nat := 8    // LOCATIONS_MAX

  /** `locations_model_add` with its null checks: a null model or place is
      refused; otherwise a full model or a stored name is refused with the
      model unchanged, and a new place is copied into slot `count`. */
  method Add(model: Model?, loc: Option<Location>) returns (ok: bool)
    requires model != null ==> model.Valid()
    modifies if model != null then {model, model.items} else {}
    ensures model == null || loc.None? ==> !ok
    ensures model != null ==> model.Valid()
    ensures model != null ==>
              (ok <==> loc.Some? && old(model.count) < LocationsMax && !HasName(old(model.Contents()), loc.value.name))
    ensures model != null && ok ==>
              model.count == old(model.count) + 1 && model.items[..] == old(model.items[..])[old(model.count) := loc.value]
    ensures model != null && !ok ==>
              model.count == old(model.count) && model.items[..] == old(model.items[..])
  {
    if model == null || loc.None? {
      return false;
    }
    ok := model.Add(loc);
  }
}
