/**
 * Types shared by both engine revisions: component and entity identifiers,
 * component payloads, and the error/option wrappers that stand for the
 * exceptions and std::optional results of the source.
 */
module Common {

  /** A component type, identified by a number (a std::type_index in the source). */
  type Component = nat

  /** The payload of one component of one entity, held by value (the references the engine hands out become copies). */
  type Value = int

  /** An entity handle: an index into the entity directory. */
  type EntityId = nat

  /** The exceptions the core throws, one constructor per throw site kind. */
  datatype Error =
    | InvalidEntityId       // info: id never allocated
    | WrongArchetype        // get: entity belongs to another archetype
    | DeadEntity            // get: entity is DEAD
    | KilledOutOfBounds     // apply_kill on an empty pool or a bad index
    | SnoozedOutOfBounds    // apply_snooze on an empty pool or a bad index
    | AwakeOutOfBounds      // apply_wake on an empty pool or a bad index
    | RedundantQuery        // a query whose filter matches no storage
    | IndexOutOfBounds      // ecs Chunk::get / Storage::remove past the end
    | EmptyQueryData        // ecs InitQueryData / QueryIterator with no storage

  datatype Result<+T> = Ok(value: T) | Err(error: Error)

  datatype Option<+T> = None | Some(value: T)

  /** No element occurs twice. */
  predicate Distinct<T(==)>(s: seq<T>) {
    forall i, j | 0 <= i < j < |s| :: s[i] != s[j]
  }
}
