/** The model a Studio draft holds: modules, and entities with their fields and relationships. */
module DraftModels {
  import opened Common

  const MANY_TO_MANY := "many_to_many"

  /** The non-key columns of a metadata row (name, label, type, ..), compared as a whole. */
  type Columns = map<string, string>

  datatype DraftModule = DraftModule(id: Uuid, columns: Columns)

  datatype DraftField = DraftField(id: Uuid, columns: Columns)

  datatype DraftRelationship = DraftRelationship(id: Uuid, target: Uuid, cardinality: string, columns: Columns)

  datatype DraftEntity = DraftEntity(
    id: Uuid,
    columns: Columns,
    fields: seq<DraftField>,
    relationships: seq<DraftRelationship>)

  datatype DraftModel = DraftModel(modules: seq<DraftModule>, entities: seq<DraftEntity>)
}
