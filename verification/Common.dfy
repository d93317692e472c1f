/** Small value types shared by every component of the model. */
module Common {

  datatype Option<+T> = None | Some(value: T)

  datatype Result<+T, +E> = Ok(value: T) | Err(error: E)

  /** Go's uint64 generations and sequences stop here. */
  const MAX_UINT64: nat := 0xFFFF_FFFF_FFFF_FFFF

  newtype byte = x: int | 0 <= x < 256

  /** Only white space: what the storage layer refuses as a task ID. */
  predicate IsBlank(id: string) {
    forall i | 0 <= i < |id| :: id[i] in " \t\n\r"
  }
}
