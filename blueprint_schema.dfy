/** The Blueprint document schema: required `name` and `structure`, the defaults, and
    the pre-save hook that refreshes `updated_at`. */
module BlueprintSchema {
  import opened Wrappers
  import opened Json
  import opened Http

  datatype Blueprint = Blueprint(
    id: ObjectId,
    name: string,
    structure: Json,
    isPublished: bool,
    version: int,
    author: string,
    createdAt: Time,
    updatedAt: Time)

  const DefaultAuthor := "admin"
  const InitialVersion := 1

  /** Mongoose's `required` on a String path rejects the empty string (a missing
      name is outside this model). */
  predicate NameGiven(name: string) {
    name != ""
  }

  /** Mongoose's `required` on a Mixed path rejects `undefined` and `null`. */
  predicate StructureGiven(structure: Option<Json>) {
    structure.Some? && structure.value != JNull
  }

  /** What every stored blueprint satisfies: its required fields passed validation. */
  predicate WellFormed(b: Blueprint) {
    NameGiven(b.name) && b.structure != JNull
  }

  /** The pre-save hook: every save stamps `updated_at` with the current time. */
  function Stamp(b: Blueprint, now: Time): (r: Blueprint)
    ensures r.updatedAt == now
    ensures r == b.(updatedAt := r.updatedAt)
  {
    b.(updatedAt := now)
  }

  /** `new Blueprint({name, structure}).save()`: rejected unless both required fields
      are given; otherwise an unpublished version-1 blueprint by 'admin', created and
      updated now. */
  function NewBlueprint(id: ObjectId, name: string, structure: Option<Json>, now: Time): (r: Option<Blueprint>)
    ensures r.Some? <==> NameGiven(name) && StructureGiven(structure)
    ensures r.Some? ==> WellFormed(r.value)
    ensures r.Some? ==> && r.value.id == id && r.value.name == name && r.value.structure == structure.value
                        && !r.value.isPublished && r.value.version == InitialVersion
                        && r.value.author == DefaultAuthor && r.value.createdAt == now
                        && r.value.updatedAt == now
  {
    if NameGiven(name) && StructureGiven(structure) then
      Some(Stamp(Blueprint(id, name, structure.value, false, InitialVersion, DefaultAuthor, now, now), now))
    else
      None
  }

  /** `blueprint.structure = structure; blueprint.save()` on a stored blueprint:
      rejected unless the new structure is given; otherwise only the structure and
      `updated_at` change. */
  function Restructure(b: Blueprint, structure: Option<Json>, now: Time): (r: Option<Blueprint>)
    ensures r.Some? <==> StructureGiven(structure)
    ensures r.Some? ==> r.value == b.(structure := structure.value, updatedAt := now)
    ensures r.Some? && WellFormed(b) ==> WellFormed(r.value)
  {
    if StructureGiven(structure) then Some(Stamp(b.(structure := structure.value), now)) else None
  }

  /** `blueprint.is_published = true; blueprint.save()`: only the flag and
      `updated_at` change, and a well-formed blueprint passes validation again. */
  function MarkPublished(b: Blueprint, now: Time): (r: Blueprint)
    ensures r.isPublished && r.updatedAt == now
    ensures r.id == b.id && r.name == b.name && r.structure == b.structure
    ensures r.version == b.version && r.author == b.author && r.createdAt == b.createdAt
    ensures WellFormed(b) ==> WellFormed(r)
  {
    Stamp(b.(isPublished := true), now)
  }
}
