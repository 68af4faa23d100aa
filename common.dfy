/** Shared vocabulary: optional values, results, identifiers and the storage error kinds. */
module Common {

  /** An optional value (Rust's `Option`). */
  datatype Option<T> = None | Some(value: T) {
    /** `unwrap_or`: the stored value, or `default` when there is none. */
    function GetOr(default: T): T {
      if Some? then value else default
    }
  }

  /** A value or an error (Rust's `Result`). */
  datatype Result<T, E> = Ok(value: T) | Err(error: E)

  /** Peers are referred to by stable integer ids. */
  type PeerId = nat

  /** Shard ids are integers local to a collection. */
  type ShardId = nat

  /** Collections are referred to by name. */
  type CollectionId = string

  /** A peer's network address, compared as text. */
  type Uri = string

  /** The error kinds the table of contents and the consensus report. */
  datatype StorageError =
    | BadInput(description: string)
    | NotFound(description: string)
    | ServiceError(description: string)
    | BadRequest(description: string)
    | Locked(description: string)
  {
    /** Service errors are the ones that stop consensus; the others are user errors. */
    predicate IsServiceError() {
      ServiceError?
    }
  }
}
