/** The optional value used throughout the model for JavaScript's
    `null`/`undefined`, an absent request field or a failed lookup, and the
    outcome of an awaited API call, which either resolves with a value or
    rejects with an error message. */
module Base {

  datatype Option<T> = None | Some(value: T)

  datatype ApiResult<T> = ApiOk(value: T) | ApiFailed(message: string)
}
