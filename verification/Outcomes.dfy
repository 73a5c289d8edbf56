/** Results of operations that may yield nothing or raise. */
module Outcomes {

  datatype Option<+T> = None | Some(value: T)

  /** The C++ exceptions that matter to `Bin`. */
  datatype Exception =
    | OutOfRange     // std::out_of_range
    | UnpackError    // msgpack::unpack_error: the bytes are not a whole MessagePack value
    | TypeError      // msgpack::type_error: the value is not of the wanted kind
    | SizeOverflow   // msgpack::container_size_overflow
    | GpgError       // GpgME::Exception
    | DecryptError   // dht::crypto::DecryptError
    | CryptoError    // any other dht::crypto error
    | BadVariant     // std::bad_variant_access

  /** `Threw` stands for an exception leaving the operation. */
  datatype Result<+T> = Ok(value: T) | Threw(error: Exception)
}
