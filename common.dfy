/** Types shared by the meta1 prefix-ownership model. */
module Common {

  /** An unsigned 8-bit value (`guint8`). */
  newtype byte = b: int | 0 <= b < 256

  /** A value or nothing; `None` stands for a C `NULL` return. */
  datatype Option<+T> = None | Some(value: T)

  /** A value or an error; `Failure` stands for a non-NULL `GError*`. */
  datatype Result<+T, +E> = Success(value: T) | Failure(error: E)

  /** The error codes the server emits itself, and any code a collaborator reports. */
  datatype ErrorCode =
    | InternalError        // CODE_INTERNAL_ERROR
    | BadRequest           // CODE_BAD_REQUEST
    | ContainerNotFound    // CODE_CONTAINER_NOTFOUND
    | Collaborator(n: int) // a code chosen by the prefix loader or the election manager

  datatype Error = Error(code: ErrorCode, message: string)

  /** `struct sqlx_name_s`: a replicated base is named by its base, its service type and its namespace. */
  datatype SqlxName = SqlxName(base: string, srvType: string, ns: string)

  /** NAME_SRVTYPE_META1 */
  const Meta1Type: string := "meta1"

  /** The number of bytes in a `container_id_t`. */
  const ContainerIdLength: nat := 32
}
