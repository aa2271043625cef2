/** Failure outcomes of the tokenizer: the only failure the source can raise is an
    out-of-range string index, which Python reports as an IndexError. */
module Results {

  datatype Error = IndexOutOfRange(index: int)

  datatype Result<T> = Ok(value: T) | Fail(error: Error)
}
