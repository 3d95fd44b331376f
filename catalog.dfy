/** The armor catalog's record schema (one JSON array per armor type), as
    the tracker's components read it. A field the JSON may omit is an
    Option; `None` is a missing field. */
module Catalog {
  import opened JsValues

  /** One entry of an upgrade step's requirement list: a bare string, or an
      `{item, quantity}` object. */
  datatype Requirement = Named(text: string) | Quantified(item: string, quantity: int)

  /** One element of a record's `upgradePaths`: the destination tier's
      `name`, its `requirements`, and its optional `URL` and `LinkURL`. */
  datatype UpgradePathRecord = UpgradePathRecord(
    name: string,
    requirements: seq<Requirement>,
    url: Option<string>,
    linkUrl: Option<string>)

  /** One catalog record: `Job`, `Slot`, `Name`, `Tier`, `URL`, `LinkURL`,
      `Description` and `upgradePaths`. */
  datatype ArmorRecord = ArmorRecord(
    job: Option<string>,
    slot: Option<string>,
    name: Option<string>,
    tier: Option<int>,
    url: Option<string>,
    linkUrl: Option<string>,
    description: Option<string>,
    upgradePaths: Option<seq<UpgradePathRecord>>)

  /** `paths.find(path => path.name === name)`: the first path, in order,
      with that name. */
  function FirstPathNamed(ps: seq<UpgradePathRecord>, name: string): (p: Option<UpgradePathRecord>)
    ensures p.Some? ==> p.value in ps && p.value.name == name
    ensures p.Some? ==> exists i :: 0 <= i < |ps| && ps[i] == p.value
                                   && forall j :: 0 <= j < i ==> ps[j].name != name
    ensures p.None? <==> forall i :: 0 <= i < |ps| ==> ps[i].name != name
  {
    if ps == [] then None
    else if ps[0].name == name then Some(ps[0])
    else
      var p := FirstPathNamed(ps[1..], name);
      assert p.Some? ==> exists i :: 0 <= i < |ps| && ps[i] == p.value
                                     && forall j :: 0 <= j < i ==> ps[j].name != name by {
        if p.Some? {
          var i :| 0 <= i < |ps| - 1 && ps[1..][i] == p.value
                   && forall j :: 0 <= j < i ==> ps[1..][j].name != name;
          assert ps[i + 1] == p.value;
          forall j | 0 <= j < i + 1 ensures ps[j].name != name {
            if j > 0 { assert ps[j] == ps[1..][j - 1]; }
          }
        }
      }
      assert p.None? ==> forall i :: 0 <= i < |ps| ==> ps[i].name != name by {
        if p.None? {
          forall i | 0 <= i < |ps| ensures ps[i].name != name {
            if i > 0 { assert ps[i] == ps[1..][i - 1]; }
          }
        }
      }
      p
  }
}
