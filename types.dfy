/** Record shapes shared by the editing hook and the views, and the two
    wrappers used for values that may be absent or operations that may fail. */
module Types {

  /** A value that may be `null` (or `undefined`) in the application. */
  datatype Option<+T> = None | Some(value: T)

  /** The outcome of an operation that can reject with an error message. */
  datatype Result<+T> = Ok(value: T) | Err(message: string)

  /** JavaScript truthiness of a nullable string: `null`, `undefined` and
      the empty string are falsy, every other string is truthy. */
  predicate Truthy(s: Option<string>) {
    s.Some? && s.value != ""
  }

  /** What the remote edit service returns: an image reference and a
      caption, either of which may be missing. */
  datatype EditResult = EditResult(imageUrl: Option<string>, text: Option<string>)

  /** One remembered edit. Entries are never changed after creation. */
  datatype HistoryItem = HistoryItem(
    id: string,
    originalImagePreview: string,
    prompt: string,
    editedImageUrl: string,
    editedImageText: Option<string>)
}
