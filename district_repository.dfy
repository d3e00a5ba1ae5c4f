/**
 * The district registry the service consults. The repository behind
 * `IDistrictRepository` is not part of this model: its storage is abstracted
 * to a finite map from district name to unit price, and its insertion is given
 * the insert-or-fail contract that its `ExistentDistrictNameException`
 * declaration implies. That contract is an assumption about foreign code,
 * not something derived from it.
 */
module DistrictRepository {
  import opened Wrappers

  /** A district as it is handed to the repository: a unique name and a unit price. */
  datatype District = District(name: string, price: real)

  /** The registry: district name to price per unit of surface. */
  type Registry = map<string, real>

  /** The registry only ever raises one error on insertion. */
  datatype InsertOutcome = Inserted(registry: Registry) | ExistentDistrictName(name: string)

  /** Lookup by exact name; an absent district is `None` (the source's `null`). */
  function FindDistrictByName(reg: Registry, name: string): (r: Option<real>)
    ensures r.Some? <==> name in reg
    ensures r.Some? ==> r.value == reg[name]
  {
    if name in reg then Some(reg[name]) else None
  }

  /**
   * Assumed repository insertion: a new name is stored with its price and every
   * other entry is kept; a name already present is refused and nothing changes.
   */
  function AddDistrict(reg: Registry, d: District): (r: InsertOutcome)
    ensures r.Inserted? <==> d.name !in reg
    ensures r.ExistentDistrictName? ==> r.name == d.name
    ensures r.Inserted? ==> r.registry.Keys == reg.Keys + {d.name}
    ensures r.Inserted? ==> FindDistrictByName(r.registry, d.name) == Some(d.price)
    ensures r.Inserted? ==> forall n :: n != d.name ==> FindDistrictByName(r.registry, n) == FindDistrictByName(reg, n)
  {
    if d.name in reg then ExistentDistrictName(d.name) else Inserted(reg[d.name := d.price])
  }
}
