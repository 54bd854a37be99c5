/** The History document schema: required `blueprint_id` and `structure`, the
    `action` enum with its default, and the `timestamp` default. */
module HistorySchema {
  import opened Wrappers
  import opened Json
  import opened Http
  import opened BlueprintSchema

  /** The values the `action` enum admits. Only Save and Publish are ever written;
      Undo and Redo have no operation behind them. */
  datatype Action = Save | Publish | Undo | Redo

  function ActionName(a: Action): string {
    match a
    case Save => "save"
    case Publish => "publish"
    case Undo => "undo"
    case Redo => "redo"
  }

  /** The enum validator: a string is admitted exactly when it names an action. */
  function ParseAction(s: string): (r: Option<Action>)
    ensures r.Some? <==> s in {"save", "publish", "undo", "redo"}
    ensures r.Some? ==> ActionName(r.value) == s
  {
    if s == "save" then Some(Save)
    else if s == "publish" then Some(Publish)
    else if s == "undo" then Some(Undo)
    else if s == "redo" then Some(Redo)
    else None
  }

  /** Every action's name passes the enum validator and names that action. */
  lemma ActionNamesRoundTrip(a: Action)
    ensures ParseAction(ActionName(a)) == Some(a)
  {
  }

  datatype HistoryEntry = HistoryEntry(
    id: ObjectId,
    blueprintId: ObjectId,
    structure: Json,
    timestamp: Time,
    action: Action)

  /** `new History({...}).save()`: rejected when `blueprint_id` or `structure` is
      missing or `action` is outside the enum; `action` defaults to save and
      `timestamp` to the creation time. */
  function NewEntry(id: ObjectId, blueprintId: Option<ObjectId>, structure: Option<Json>, action: Option<string>,
                  now: Time): (r: Option<HistoryEntry>)
    ensures r.Some? <==> blueprintId.Some? && StructureGiven(structure)
                         && (action.None? || ParseAction(action.value).Some?)
    ensures r.Some? ==> && r.value.id == id && r.value.blueprintId == blueprintId.value
                        && r.value.structure == structure.value && r.value.timestamp == now
    ensures r.Some? && action.None? ==> r.value.action == Save
    ensures r.Some? && action.Some? ==> ActionName(r.value.action) == action.value
  {
    if blueprintId.None? || !StructureGiven(structure) then None
    else if action.None? then Some(HistoryEntry(id, blueprintId.value, structure.value, now, Save))
    else match ParseAction(action.value)
      case None => None
      case Some(a) => Some(HistoryEntry(id, blueprintId.value, structure.value, now, a))
  }
}
