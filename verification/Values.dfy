/** Field values of a record. */
module Values {

  /** A Go string or byte slice, one character a byte. */
  type Bytes = string

  /** A string, raw bytes, or anything else together with its JSON encoding. */
  datatype FieldValue = Str(text: Bytes) | Raw(bytes: Bytes) | Other(json: Bytes)

  /** The bytes a value is written as, in files and in Kubernetes Secrets alike. */
  function ValueToBytes(v: FieldValue): Bytes {
    match v
    case Str(text) => text
    case Raw(bytes) => bytes
    case Other(json) => json
  }
}
