/** Types shared by the models. */
module Common {
  datatype Option<+T> = None | Some(value: T)

  /** A C++ `std::string` is a sequence of bytes, written here as characters below 256. */
  type Byte = c: char | c < 256 as char
  type Bytes = seq<Byte>
}
